/** Input expansion and fan-out of `parallel_main.py`: the zip-code table is
    filtered by the comma-separated `--city` and `--state_id` lists (lines
    22-47), one search string is formatted per surviving row (lines 49-54),
    and each becomes one scraper command (lines 8-9).

    The table read from `uszips.xlsx` is the parameter `table`; its cells are
    the texts that the f-string of line 53 prints. */
module Expansion {
  import opened Wrappers
  import opened Text

  /** One row of the zip-code table, with the four columns the code reads. */
  datatype LocationRow = LocationRow(stateName: string, stateId: string, city: string, zip: string)

  /** The two columns the filters work on. */
  datatype Column = City | StateId

  function Cell(row: LocationRow, col: Column): string
  {
    match col
    case City => row.city
    case StateId => row.stateId
  }

  function LowerCell(row: LocationRow, col: Column): LocationRow
  {
    match col
    case City => row.(city := Lower(row.city))
    case StateId => row.(stateId := Lower(row.stateId))
  }

  /** `df[col] = df[col].str.lower()`: every row, in place, with that one
      column lower-cased. */
  function LowerColumn(rows: seq<LocationRow>, col: Column): (r: seq<LocationRow>)
    ensures |r| == |rows|
    ensures forall i :: 0 <= i < |rows| ==> r[i] == LowerCell(rows[i], col)
  {
    if rows == [] then []
    else LowerColumn(rows[..|rows| - 1], col) + [LowerCell(rows[|rows| - 1], col)]
  }

  /** `df[df[col].isin(wanted)]`: a row is kept exactly when its cell is one
      of the wanted values. */
  function KeepIn(rows: seq<LocationRow>, col: Column, wanted: seq<string>): (r: seq<LocationRow>)
    ensures |r| <= |rows|
  {
    if rows == [] then []
    else
      var last := rows[|rows| - 1];
      KeepIn(rows[..|rows| - 1], col, wanted) + (if Cell(last, col) in wanted then [last] else [])
  }

  /** One entry of a filter list, `x.strip().lower()`: already stripped and
      lower-cased, and free of any character `x` does not hold in lower case. */
  function FilterEntry(x: string): (e: string)
    ensures Strip(e) == e && Lower(e) == e
    ensures ',' !in x ==> ',' !in e
  {
    LowerStripNormal(x);
    Lower(Strip(x))
  }

  /** `list(x.strip().lower() for x in arg.split(","))` (lines 29-30, 34-35):
      one normalised entry per comma-separated piece, none holding a comma. */
  function FilterList(arg: string): (r: seq<string>)
    ensures |r| == |Split(arg, ',')|
    ensures forall k :: 0 <= k < |r| ==> r[k] == FilterEntry(Split(arg, ',')[k])
    ensures forall k :: 0 <= k < |r| ==> ',' !in r[k] && Strip(r[k]) == r[k] && Lower(r[k]) == r[k]
  {
    var parts := Split(arg, ',');
    seq(|parts|, k requires 0 <= k < |parts| => FilterEntry(parts[k]))
  }

  /** A comma-joined list of entries that are already stripped, lower-cased
      and comma-free is read back as exactly those entries. */
  lemma FilterListJoin(entries: seq<string>)
    requires |entries| >= 1
    requires forall k :: 0 <= k < |entries| ==> ',' !in entries[k]
    requires forall k :: 0 <= k < |entries| ==> Strip(entries[k]) == entries[k] && Lower(entries[k]) == entries[k]
    ensures FilterList(Join(entries, ',')) == entries
  {
    SplitJoin(entries, ',');
    var r := FilterList(Join(entries, ','));
    forall k | 0 <= k < |entries|
      ensures r[k] == entries[k]
    {
      assert r[k] == FilterEntry(entries[k]);
    }
  }

  /** The table after lines 22-37: `state_id` lower-cased, then filtered by
      city when `--city` is given, then by state id when `--state_id` is. */
  function Selected(table: seq<LocationRow>, city: Option<string>, stateId: Option<string>): (r: seq<LocationRow>)
    ensures |r| <= |table|
  {
    var zipCode := LowerColumn(table, StateId);
    var zipCode := if Truthy(city) then KeepIn(LowerColumn(zipCode, City), City, FilterList(city.value)) else zipCode;
    if Truthy(stateId) then KeepIn(LowerColumn(zipCode, StateId), StateId, FilterList(stateId.value)) else zipCode
  }

  /** The errors of lines 24-26, 38-42 and 43-47. */
  datatype ConfigError = MissingSearch | NoFilter | NoMatch

  /** `f"{row['state_name']} {row['city']} {row['zip']} {search_for}"`. */
  function SearchInput(row: LocationRow, search: string): (r: string)
    ensures |r| == |row.stateName| + |row.city| + |row.zip| + |search| + 3
    ensures r[..|row.stateName| + 1] == row.stateName + " "
    ensures r[|r| - |search| - 1..] == " " + search
    ensures r[|row.stateName| + 1..|r| - |search| - 1] == row.city + " " + row.zip
  {
    var middle := row.city + " " + row.zip;
    var r := row.stateName + " " + middle + " " + search;
    assert r == row.stateName + " " + row.city + " " + row.zip + " " + search;
    assert r[|row.stateName| + 1..|r| - |search| - 1] == middle;
    r
  }

  /** The search inputs of the rows, in table order. */
  function SearchInputs(rows: seq<LocationRow>, search: string): (r: seq<string>)
    ensures |r| == |rows|
    ensures forall i :: 0 <= i < |rows| ==> r[i] == SearchInput(rows[i], search)
  {
    if rows == [] then []
    else SearchInputs(rows[..|rows| - 1], search) + [SearchInput(rows[|rows| - 1], search)]
  }

  /** Every search input ends with a space and the search term. */
  lemma SearchInputsEnd(rows: seq<LocationRow>, search: string)
    ensures forall k :: 0 <= k < |rows| ==> EndsWith(SearchInputs(rows, search)[k], " " + search)
  {
    var r := SearchInputs(rows, search);
    forall k | 0 <= k < |rows|
      ensures EndsWith(r[k], " " + search)
    {
      assert r[k] == SearchInput(rows[k], search);
    }
  }

  /** What lines 22-54 compute: an error, or the list `inputs`. */
  function Expanded(table: seq<LocationRow>, search: Option<string>, city: Option<string>, stateId: Option<string>)
    : (r: Result<seq<string>, ConfigError>)
    ensures r.Success? ==> Truthy(search) && 1 <= |r.value| <= |table|
    ensures r.Success? ==> forall k :: 0 <= k < |r.value| ==> EndsWith(r.value[k], " " + search.value)
  {
    if !Truthy(search) then Failure(MissingSearch)
    else if !Truthy(city) && !Truthy(stateId) then Failure(NoFilter)
    else
      var rows := Selected(table, city, stateId);
      if |rows| == 0 then Failure(NoMatch)
      else SearchInputsEnd(rows, search.value); Success(SearchInputs(rows, search.value))
  }

  /** Lines 22-54 of `main()`: the table is copied, its columns lower-cased
      and rebound through the filters, and `inputs` is built row by row. */
  method ExpandInputs(table: seq<LocationRow>, search: Option<string>, city: Option<string>, stateId: Option<string>)
    returns (r: Result<seq<string>, ConfigError>)
    ensures r == Expanded(table, search, city, stateId)
  {
    var zipCode := table;
    zipCode := LowerColumn(zipCode, StateId);
    if !Truthy(search) {
      return Failure(MissingSearch);
    }
    var searchFor := search.value;
    if Truthy(city) {
      var cities := FilterList(city.value);
      zipCode := LowerColumn(zipCode, City);
      zipCode := KeepIn(zipCode, City, cities);
    }
    if Truthy(stateId) {
      var ids := FilterList(stateId.value);
      zipCode := LowerColumn(zipCode, StateId);
      zipCode := KeepIn(zipCode, StateId, ids);
    }
    if !Truthy(city) && !Truthy(stateId) {
      return Failure(NoFilter);
    }
    if |zipCode| == 0 {
      return Failure(NoMatch);
    }
    var inputs := FormatInputs(zipCode, searchFor);
    r := Success(inputs);
  }

  /** Lines 49-54: one formatted input appended per remaining row. */
  method FormatInputs(rows: seq<LocationRow>, searchFor: string) returns (inputs: seq<string>)
    ensures inputs == SearchInputs(rows, searchFor)
  {
    inputs := [];
    for i := 0 to |rows|
      invariant inputs == SearchInputs(rows[..i], searchFor)
    {
      assert rows[..i + 1][..i] == rows[..i];
      inputs := inputs + [SearchInput(rows[i], searchFor)];
    }
    assert rows[..|rows|] == rows;
  }

  // ----- the filters as one pass over the table -----

  /** A row survives: its lower-cased city is in the city list when one is
      given, and its lower-cased state id is in the id list when one is. */
  predicate Passes(row: LocationRow, city: Option<string>, stateId: Option<string>)
  {
    && (Truthy(city) ==> Lower(row.city) in FilterList(city.value))
    && (Truthy(stateId) ==> Lower(row.stateId) in FilterList(stateId.value))
  }

  /** A surviving row as it is emitted: state id lower-cased, and the city
      lower-cased too when the city filter ran (line 31). */
  function Normalized(row: LocationRow, cityGiven: bool): LocationRow
  {
    LocationRow(row.stateName, Lower(row.stateId), if cityGiven then Lower(row.city) else row.city, row.zip)
  }

  /** The reference: one pass that keeps, in table order, the normalized rows
      that pass both filters. */
  function SinglePass(table: seq<LocationRow>, city: Option<string>, stateId: Option<string>): seq<LocationRow>
  {
    if table == [] then []
    else
      var last := table[|table| - 1];
      SinglePass(table[..|table| - 1], city, stateId)
        + (if Passes(last, city, stateId) then [Normalized(last, Truthy(city))] else [])
  }

  /** Lower-casing a column acts row by row. */
  lemma LowerColumnAppend(a: seq<LocationRow>, b: seq<LocationRow>, col: Column)
    ensures LowerColumn(a + b, col) == LowerColumn(a, col) + LowerColumn(b, col)
  {
    var l, r := LowerColumn(a + b, col), LowerColumn(a, col) + LowerColumn(b, col);
    forall i | 0 <= i < |l|
      ensures l[i] == r[i]
    {
      if i >= |a| {
        assert (a + b)[i] == b[i - |a|];
      }
    }
  }

  lemma KeepInSnoc(rows: seq<LocationRow>, x: LocationRow, col: Column, wanted: seq<string>)
    ensures KeepIn(rows + [x], col, wanted) == KeepIn(rows, col, wanted) + KeepIn([x], col, wanted)
  {
    assert (rows + [x])[..|rows|] == rows;
    assert [x][..0] == [];
  }

  /** One more row on the right of `b`, given the split for `b`. */
  lemma KeepInAppendStep(a: seq<LocationRow>, b: seq<LocationRow>, last: LocationRow, col: Column, wanted: seq<string>)
    requires KeepIn(a + b, col, wanted) == KeepIn(a, col, wanted) + KeepIn(b, col, wanted)
    ensures KeepIn(a + (b + [last]), col, wanted) == KeepIn(a, col, wanted) + KeepIn(b + [last], col, wanted)
  {
    var ka, kb, kl := KeepIn(a, col, wanted), KeepIn(b, col, wanted), KeepIn([last], col, wanted);
    assert KeepIn(a + (b + [last]), col, wanted) == (ka + kb) + kl by {
      assert a + (b + [last]) == (a + b) + [last];
      KeepInSnoc(a + b, last, col, wanted);
    }
    KeepInSnoc(b, last, col, wanted);
    assert (ka + kb) + kl == ka + (kb + kl);
  }

  lemma {:induction false} KeepInAppend(a: seq<LocationRow>, b: seq<LocationRow>, col: Column, wanted: seq<string>)
    ensures KeepIn(a + b, col, wanted) == KeepIn(a, col, wanted) + KeepIn(b, col, wanted)
    decreases |b|
  {
    if b == [] {
      assert a + b == a;
    } else {
      var b', last := b[..|b| - 1], b[|b| - 1];
      KeepInAppend(a, b', col, wanted);
      KeepInAppendStep(a, b', last, col, wanted);
      assert b == b' + [last];
    }
  }

  /** A row is kept exactly when it is in the table and its cell is one of
      the wanted values. */
  lemma {:induction false} KeepInMembers(rows: seq<LocationRow>, col: Column, wanted: seq<string>, x: LocationRow)
    ensures x in KeepIn(rows, col, wanted) <==> x in rows && Cell(x, col) in wanted
  {
    if rows != [] {
      var front, last := rows[..|rows| - 1], rows[|rows| - 1];
      KeepInMembers(front, col, wanted, x);
      assert rows == front + [last];
    }
  }

  /** The successive filters act row by row. */
  lemma SelectedAppend(a: seq<LocationRow>, b: seq<LocationRow>, city: Option<string>, stateId: Option<string>)
    ensures Selected(a + b, city, stateId) == Selected(a, city, stateId) + Selected(b, city, stateId)
  {
    LowerColumnAppend(a, b, StateId);
    var za, zb := LowerColumn(a, StateId), LowerColumn(b, StateId);
    if Truthy(city) {
      LowerColumnAppend(za, zb, City);
      KeepInAppend(LowerColumn(za, City), LowerColumn(zb, City), City, FilterList(city.value));
      za, zb := KeepIn(LowerColumn(za, City), City, FilterList(city.value)),
                KeepIn(LowerColumn(zb, City), City, FilterList(city.value));
    }
    if Truthy(stateId) {
      LowerColumnAppend(za, zb, StateId);
      KeepInAppend(LowerColumn(za, StateId), LowerColumn(zb, StateId), StateId, FilterList(stateId.value));
    }
  }

  lemma KeepInSingle(x: LocationRow, col: Column, wanted: seq<string>)
    ensures KeepIn([x], col, wanted) == if Cell(x, col) in wanted then [x] else []
  {
    assert [x][..0] == [];
  }

  /** The city stage on a one-row table. */
  lemma CityStageSingle(r1: LocationRow, wanted: seq<string>)
    ensures KeepIn(LowerColumn([r1], City), City, wanted)
      == if Lower(r1.city) in wanted then [r1.(city := Lower(r1.city))] else []
  {
    var r2 := r1.(city := Lower(r1.city));
    assert LowerColumn([r1], City) == [r2];
    KeepInSingle(r2, City, wanted);
  }

  /** The state-id stage on a table of at most one row whose id is lower-cased. */
  lemma IdStageSingle(z: seq<LocationRow>, wanted: seq<string>)
    requires |z| <= 1
    requires forall k :: 0 <= k < |z| ==> Lower(z[k].stateId) == z[k].stateId
    ensures KeepIn(LowerColumn(z, StateId), StateId, wanted)
      == if z != [] && z[0].stateId in wanted then z else []
  {
    if z != [] {
      assert LowerColumn(z, StateId) == z;
      KeepInSingle(z[0], StateId, wanted);
    }
  }

  /** What the filters do to a one-row table. */
  lemma SelectedSingle(row: LocationRow, city: Option<string>, stateId: Option<string>)
    ensures Selected([row], city, stateId)
      == if Passes(row, city, stateId) then [Normalized(row, Truthy(city))] else []
  {
    var n := Normalized(row, Truthy(city));
    var cityOk := Truthy(city) ==> Lower(row.city) in FilterList(city.value);
    var id := Lower(row.stateId);
    assert Lower(id) == id by {
      LowerIdempotent(row.stateId);
    }
    var r1 := row.(stateId := id);
    var z0 := LowerColumn([row], StateId);
    assert z0 == [r1];
    var z1 := if Truthy(city) then KeepIn(LowerColumn(z0, City), City, FilterList(city.value)) else z0;
    assert z1 == if cityOk then [n] else [] by {
      if Truthy(city) {
        CityStageSingle(r1, FilterList(city.value));
      }
    }
    var z2 := if Truthy(stateId) then KeepIn(LowerColumn(z1, StateId), StateId, FilterList(stateId.value)) else z1;
    assert Selected([row], city, stateId) == z2;
    if Truthy(stateId) {
      IdStageSingle(z1, FilterList(stateId.value));
    }
  }

  /** Filtering by city and then by state id is the single pass that keeps
      the rows passing both: the two filters are ANDed, and table order is
      kept. */
  lemma {:induction false} SelectedIsSinglePass(table: seq<LocationRow>, city: Option<string>, stateId: Option<string>)
    ensures Selected(table, city, stateId) == SinglePass(table, city, stateId)
  {
    if table != [] {
      var front, last := table[..|table| - 1], table[|table| - 1];
      SelectedIsSinglePass(front, city, stateId);
      assert table == front + [last];
      SelectedAppend(front, [last], city, stateId);
      SelectedSingle(last, city, stateId);
    } else {
      assert LowerColumn(table, StateId) == [];
    }
  }

  lemma SinglePassSnoc(table: seq<LocationRow>, city: Option<string>, stateId: Option<string>)
    requires table != []
    ensures SinglePass(table, city, stateId) == SinglePass(table[..|table| - 1], city, stateId)
      + (if Passes(table[|table| - 1], city, stateId) then [Normalized(table[|table| - 1], Truthy(city))] else [])
  {
  }

  /** Every emitted row comes from a table row that passes both filters. */
  lemma {:induction false} SinglePassSound(table: seq<LocationRow>, city: Option<string>, stateId: Option<string>, x: LocationRow)
    requires x in SinglePass(table, city, stateId)
    ensures exists i :: 0 <= i < |table| && Passes(table[i], city, stateId) && x == Normalized(table[i], Truthy(city))
  {
    var n := |table| - 1;
    var front, last := table[..n], table[n];
    SinglePassSnoc(table, city, stateId);
    if x in SinglePass(front, city, stateId) {
      SinglePassSound(front, city, stateId, x);
      var i :| 0 <= i < |front| && Passes(front[i], city, stateId) && x == Normalized(front[i], Truthy(city));
      assert table[i] == front[i];
    } else {
      assert Passes(last, city, stateId) && x == Normalized(last, Truthy(city));
    }
  }

  /** Every table row that passes both filters is emitted, normalized. */
  lemma {:induction false} SinglePassComplete(table: seq<LocationRow>, city: Option<string>, stateId: Option<string>, i: nat)
    requires i < |table| && Passes(table[i], city, stateId)
    ensures Normalized(table[i], Truthy(city)) in SinglePass(table, city, stateId)
  {
    var n := |table| - 1;
    var front := table[..n];
    var x := Normalized(table[i], Truthy(city));
    var tail := if Passes(table[n], city, stateId) then [Normalized(table[n], Truthy(city))] else [];
    SinglePassSnoc(table, city, stateId);
    assert SinglePass(table, city, stateId) == SinglePass(front, city, stateId) + tail;
    if i < n {
      assert table[i] == front[i];
      SinglePassComplete(front, city, stateId, i);
      assert x in SinglePass(front, city, stateId);
    } else {
      assert x in tail;
    }
  }

  /** A row is emitted exactly when some table row passes both filters and
      normalizes to it. */
  lemma SinglePassIff(table: seq<LocationRow>, city: Option<string>, stateId: Option<string>, x: LocationRow)
    ensures x in SinglePass(table, city, stateId) <==>
      exists i :: 0 <= i < |table| && Passes(table[i], city, stateId) && x == Normalized(table[i], Truthy(city))
  {
    if x in SinglePass(table, city, stateId) {
      SinglePassSound(table, city, stateId, x);
    } else {
      forall i | 0 <= i < |table|
        ensures !(Passes(table[i], city, stateId) && x == Normalized(table[i], Truthy(city)))
      {
        if Passes(table[i], city, stateId) {
          SinglePassComplete(table, city, stateId, i);
        }
      }
    }
  }

  /** The expansion, stated on the single pass: the three errors in the order
      the code checks them, and otherwise one search input per surviving row,
      in table order. */
  lemma ExpandedMeaning(table: seq<LocationRow>, search: Option<string>, city: Option<string>, stateId: Option<string>)
    ensures Expanded(table, search, city, stateId) ==
      if !Truthy(search) then Failure(MissingSearch)
      else if !Truthy(city) && !Truthy(stateId) then Failure(NoFilter)
      else if |SinglePass(table, city, stateId)| == 0 then Failure(NoMatch)
      else Success(SearchInputs(SinglePass(table, city, stateId), search.value))
  {
    SelectedIsSinglePass(table, city, stateId);
  }

  /** With the city filter, every emitted city is lower-case: the formatted
      input reads `California los angeles 90001 boutique`, not the mixed case
      of the example comment on line 50. */
  lemma {:induction false} EmittedCityLowercase(table: seq<LocationRow>, city: Option<string>, stateId: Option<string>, x: LocationRow)
    requires Truthy(city)
    requires x in SinglePass(table, city, stateId)
    ensures Lower(x.city) == x.city && Lower(x.stateId) == x.stateId
  {
    SinglePassIff(table, city, stateId, x);
    var i :| 0 <= i < |table| && Passes(table[i], city, stateId) && x == Normalized(table[i], true);
    LowerIdempotent(table[i].city);
    LowerIdempotent(table[i].stateId);
  }

  /** A one-row table whose row passes the given filters expands to the one
      input formatted from the normalized row. */
  lemma ExpandedSingle(row: LocationRow, search: Option<string>, city: Option<string>, stateId: Option<string>)
    requires Truthy(search) && (Truthy(city) || Truthy(stateId))
    requires Passes(row, city, stateId)
    ensures Expanded([row], search, city, stateId) == Success([SearchInput(Normalized(row, Truthy(city)), search.value)])
  {
    SelectedSingle(row, city, stateId);
    var kept := Normalized(row, Truthy(city));
    assert SearchInputs([kept], search.value) == [SearchInput(kept, search.value)];
  }

  /** The keyword `boutique` with `--city "Los Angeles"` on the one row
      (California, CA, Los Angeles, 90001) gives exactly one input. */
  lemma BoutiqueExample()
    ensures Expanded([LocationRow("California", "CA", "Los Angeles", "90001")], Some("boutique"), Some("Los Angeles"), None)
      == Success(["California los angeles 90001 boutique"])
  {
    var row := LocationRow("California", "CA", "Los Angeles", "90001");
    var city: Option<string>, stateId: Option<string> := Some("Los Angeles"), None;
    LosAngelesFilter();
    LowerLosAngeles();
    assert Lower(row.city) in FilterList(city.value);
    assert !Truthy(stateId);
    ExpandedSingle(row, Some("boutique"), city, stateId);
    LowerCA();
    assert Normalized(row, true) == LocationRow("California", "ca", "los angeles", "90001");
    BoutiqueInput();
  }

  lemma BoutiqueInput()
    ensures SearchInput(LocationRow("California", "ca", "los angeles", "90001"), "boutique")
      == "California los angeles 90001 boutique"
  {
  }

  lemma LowerCA()
    ensures Lower("CA") == "ca"
  {
  }

  lemma LowerLosAngeles()
    ensures Lower("Los Angeles") == "los angeles"
  {
  }

  /** An argument without a comma and without surrounding whitespace is a
      one-entry filter list: the argument lower-cased. */
  lemma FilterListSingle(x: string)
    requires ',' !in x
    requires x == [] || (!IsSpace(x[0]) && !IsSpace(x[|x| - 1]))
    ensures FilterList(x) == [Lower(x)]
  {
    SplitNoSeparator(x, ',');
    StripTrimmed(x);
    var r := FilterList(x);
    assert |r| == 1 && r[0] == FilterEntry(x);
  }

  /** `"Los Angeles".split(",")` stripped and lower-cased. */
  lemma LosAngelesFilter()
    ensures FilterList("Los Angeles") == ["los angeles"]
  {
    var s := "Los Angeles";
    assert ',' !in s && s[0] == 'L' && s[|s| - 1] == 's';
    FilterListSingle(s);
    LowerLosAngeles();
  }

  // ----- fan-out: `run_scraper` -----

  const COMMAND_PREFIX := "python main.py -s=\""
  const COMMAND_SUFFIX := "\" -t=200"

  /** `f'python main.py -s="{search_content.strip()}" -t=200'`: the stripped
      input sits between the fixed prefix and the fixed `-t=200` suffix. */
  function ScraperCommand(searchContent: string): (r: string)
    ensures |r| == |COMMAND_PREFIX| + |Strip(searchContent)| + |COMMAND_SUFFIX|
    ensures r[..|COMMAND_PREFIX|] == COMMAND_PREFIX
    ensures r[|COMMAND_PREFIX|..|r| - |COMMAND_SUFFIX|] == Strip(searchContent)
    ensures r[|r| - |COMMAND_SUFFIX|..] == COMMAND_SUFFIX
  {
    COMMAND_PREFIX + Strip(searchContent) + COMMAND_SUFFIX
  }
}
