# Google Maps scraper: a Dafny model of its control logic

The scraper searches Google Maps for a keyword and collects one record per
business listing. This project models the four parts of it that hold real
control flow, and proves properties of each:

- **Discovery** (`main.py`, the `while True` loop): the result list is
  scrolled over and over. After each scroll the place anchors are counted.
  The loop stops once `total` anchors are visible, keeping the parents of
  the first `total`. It also stops once a scroll brings no new anchor,
  keeping all of them.
- **Extraction and accumulation** (`main.py`, the loop over the listings):
  each listing is clicked and a `Business` is filled in field by field.
  - Five text fields fall back to `""`.
  - The name comes from the page title and the link from the URL.
  - The average rating and the review count are read together.
  - A listing whose extraction raises contributes nothing.
  - The session's rows are saved under a name built from the keyword and the
    date.
- **Fan-out** (`parallel_main.py`): the zip-code table is filtered by the
  comma-separated city and state-id lists. Each surviving row becomes one
  search input, and each input becomes one `main.py` command line.
- **Merge** (`merge_data.py`): every `.xlsx` under `output/` is found by a
  directory walk. Its State and City are read off the path. Its rows are
  de-duplicated and tagged with State and City. The tables are then
  concatenated and de-duplicated again.

The files, in dependency order:

- `wrappers.dfy`: `Option` and `Result`.
- `text.dfy`: the Python string operations used, on ASCII. These are
  `lower`, `strip`, `split`, one-character `replace` and `endswith`, with the
  truthiness test of an optional argument. `join` is defined only as the
  inverse against which `split` is proved.
- `discovery.dfy`: the discovery loop.
- `extraction.dfy`: the `Business` record and the extraction of one listing.
- `scrape.dfy`: the `BusinessList` class and the listing loop. It also holds
  the output file name and a whole session.
- `expansion.dfy`: the filters, the search inputs and the command line of
  `parallel_main.py`.
- `merge.dfy`: `find_files`, the path split, the tagging, the duplicate
  drops and the merge loop.

The source's loops are `method`s, each proved equal to a specification
function: `Discover`, `ScrapeListings`, `ExpandInputs`, `FormatInputs`,
`FindFiles` and `MergeOutputs`. The straight-line assignments that fill a
`Business()` field by field are the method `ExtractBusiness`, proved equal
to `Extracted`. `BusinessList` is a class
whose `Append` extends its `businessList` field. The rest is functions, plus
lemmas about those functions.

Everything outside the Dafny code enters as a parameter:

- **Discovery**: the views the page shows after each scroll (`views`).
- **Listing loop**: what a click opens (`click`, `Clicked`).
- **Extraction**:
  - `float()` on the average-rating text (`parseAverage`);
  - the rendered page, as title, URL and the texts each locator matches
    (`Page`).
- **Session name**: the date string (`today`).
- **Fan-out**: the zip-code table read from `uszips.xlsx` (`table`).
- **Merge**:
  - the directory walk (`walk`);
  - `pd.read_excel` (`read`), which gives each row as a map from column name
    to cell text.

Where the code and its documented behaviour differ, the model follows the
code:

- **City case.** The city filter lower-cases the `city` column before the
  inputs are formatted. So the row (California, CA, Los Angeles, 90001) with
  `--city "Los Angeles"` gives `California los angeles 90001 boutique`. It
  does not give the capitalised form in the comment on line 50 of
  `parallel_main.py`. `Expansion.BoutiqueExample` proves the lower-case form
  and `Expansion.EmittedCityLowercase` proves it in general.
- **`--total` default.** `main.py` computes a default of `1_000_000` for a
  missing `--total` (lines 98-101). It then parses the arguments again and
  sets `total = args.total` (lines 104-109), so the default never reaches
  the loop. Without `--total`, the first comparison `count >= None` raises a
  `TypeError`. The model reports this as `Scrape.SessionError.TotalMissing`,
  not as an unbounded target.
- **Missing `--search`.** `sys.exit()` with no argument exits with status 0.
  The model reports `MissingSearch` and makes no claim about the exit status.

## Model

| member | source | states |
|---|---|---|
| Text.Strip | parallel_main.py:30 | `strip()` removes only whitespace and only at the ends: the result is an infix of the input that neither starts nor ends with whitespace, and everything removed is whitespace |
| Text.Truthy | parallel_main.py:23-37 | (no contract of its own) Python truthiness of an optional argument, given and non-empty, as tested by `if not args.search` here and at main.py:95, and by `if args.city` and `if args.state_id`; `ExpandedMeaning` and `RunSession` state the branches it selects |
| Text.EndsWith | merge_data.py:15 | (no contract of its own) `file.endswith(extension)`: the suffix fits and the tail equals it; `FoundFilesIff` and `FoundFilesHaveExtension` use it |
| Text.Lower | parallel_main.py:23 | `str.lower()` keeps the length, leaves no upper-case letter, turns each upper-case letter into its lower-case one and keeps every other character |
| Text.LeadingSpace | parallel_main.py:30 | (helper of `Strip`) the exact length of the leading whitespace run |
| Text.TrailingSpace | parallel_main.py:30 | (helper of `Strip`) the exact length of the trailing whitespace run |
| Text.StripTrimmed | parallel_main.py:30 | a string that neither starts nor ends with whitespace is its own `strip()` |
| Text.LowerStripNormal | parallel_main.py:30 | `strip().lower()` gives a string that a second `strip().lower()` leaves alone, and that adds no character other than lower-case letters |
| Text.Split | parallel_main.py:29 | `split(",")` gives at least one piece and no piece contains the separator |
| Text.JoinSplit | parallel_main.py:29 | joining the pieces of a split with the separator gives back the original string |
| Text.SplitJoin | parallel_main.py:29 | splitting a join of separator-free pieces gives back exactly those pieces |
| Text.SplitPrefix | parallel_main.py:29 | (helper) a separator-free prefix is glued to the first piece of the rest's split |
| Text.SplitNoSeparator | parallel_main.py:29 | an argument without a comma is a one-element filter list |
| Text.LowerIdempotent | parallel_main.py:36 | lower-casing `state_id` a second time (lines 23 and 36) changes nothing |
| Text.Replace | main.py:274 | one-character replace keeps the length, rewrites exactly the occurrences of the old character, and leaves none of it when old and new differ |
| Text.ReplaceAppend | main.py:274 | one-character replace distributes over concatenation |
| Text.ReplaceAbsent | main.py:274 | a string without the old character is left as it is |
| Discovery.PyPrefix | main.py:154 | `all()[:total]` has Python slice semantics: `min(total, n)` elements for non-negative `total`, `total` dropped from the end for negative `total`, always a prefix |
| Discovery.Anchors | main.py:167-169 | (no contract of its own) the anchors themselves, one handle per anchor in page order, kept when the count stalls |
| Discovery.Parents | main.py:152-155 | (no contract of its own) the parent element of each anchor, in page order, kept when the count reaches `total` |
| Discovery.Kept | main.py:146-169 | (no contract of its own) what a stopping iteration keeps: the parents of the first `total` anchors when the count reached `total`, else the anchors; `DiscoveryIsFirstStop` and `DiscoveredWithinTotal` state the result in its terms |
| Discovery.Discover | main.py:141-181 | the loop returns exactly what the specification function gives for the observed views |
| Discovery.DiscoverFrom | main.py:141-181 | (specification of the loop) a stop found from iteration `i` on lies at or after `i` and within the views; what it keeps is stated by `DiscoverFromFirstStop` |
| Discovery.Discovered | main.py:141-181 | (specification of the loop from `previously_counted = 0`) a stop lies within the views; its meaning is stated by `DiscoveryIsFirstStop` |
| Discovery.DiscoverFromFirstStop | main.py:142-175 | from any iteration on, the loop stops at the first iteration that has enough anchors or no growth, and keeps the parents of the first `total` or all anchors accordingly; it never stops when no iteration qualifies |
| Discovery.DiscoveryIsFirstStop | main.py:141-181 | the whole loop stops at the first qualifying iteration with the listings that branch keeps, or not at all |
| Discovery.DiscoveredWithinTotal | main.py:146-155 | for a non-negative target, at most `total` listings are kept: the parents of the first `total` anchors when the count reached it, otherwise every anchor |
| Discovery.EmptyFirstViewStops | main.py:141-171 | a first view with no anchor stops the loop at once with no listing, because `previously_counted` starts at 0 (on the live page the hover of line 137 waits for an anchor first, so such a page times out before the loop) |
| Discovery.GrowthWithoutStop | main.py:172-175 | while the loop does not stop on non-decreasing counts, the count at iteration `j` is at least `j + 1` |
| Discovery.DiscoveryTerminates | main.py:159-171 | when the counts never decrease and never exceed `n`, the loop stops within `n + 1` iterations |
| Extraction.FirstSepFrom | main.py:204 | the first position at or after `i` where `" - "` starts, or the end when there is none |
| Extraction.NameOf | main.py:203-204 | `title.split(" - ")[0]` is a prefix of the title with no `" - "` in it, followed in the title by `" - "` unless it is the whole title |
| Extraction.RemoveCommas | main.py:227-229 | `replace(",", "")` leaves no comma; `RemoveCommasAppend`, `RemoveCommasCommaFree` and `RemoveCommasComma` together determine it on every string |
| Extraction.Unbracket | main.py:227-229 | `[1:-1]` is the text between the first and the last character, and `""` for a text shorter than two |
| Extraction.RemoveCommasAppend | main.py:227-229 | (helper) removing commas distributes over concatenation |
| Extraction.RemoveCommasCommaFree | main.py:227-229 | a string without a comma is left unchanged |
| Extraction.RemoveCommasComma | main.py:227-229 | a single comma is removed |
| Extraction.RemoveCommasOfDigits | main.py:227-229 | (helper) a digit string has no comma, so it is left unchanged |
| Extraction.ParseReviewCount | main.py:224-230 | every bracketed, comma-grouped count `"(" + Grouped(n) + ")"`, such as `"(8,822)"`, reads as `n`; and a text is rejected (`ValueError`) exactly when its cleaned form is not a non-empty run of digits |
| Extraction.FirstOrEmpty | main.py:206-219 | (no contract of its own) the field policy of the five text fields, here and at lines 240-250: the first match's text when the locator matches, `""` otherwise; `Extracted` and `RenderedTexts` are stated in its terms |
| Extraction.DecimalValue | main.py:230 | (no contract of its own) the value `int()` gives a run of decimal digits; `DecimalRoundTrip` proves it inverts the decimal numeral, and `ParseReviewCount` states the grouped round trip |
| Extraction.Extracted | main.py:202-253 | an extraction succeeds exactly when the ratings can be read. On success every string field is set, each text field holds the first match or `""`, the name is the title's head and the link is the URL, and the average and the count are absent together with the average element or both read. On failure the error is the first step that raised |
| Extraction.ExtractBusiness | main.py:202-253 | filling a fresh `Business()` field by field gives exactly `Extracted`, error included |
| Extraction.DecimalRoundTrip | main.py:230 | the decimal numeral of a natural number is a non-empty digit string whose value is that number |
| Extraction.GroupedDigits | main.py:227-229 | removing the thousands separators of a grouped count leaves digits whose value is the count |
| Extraction.Pad3Value | main.py:227-229 | (helper) appending a three-digit group multiplies the value by 1000 and adds the group |
| Extraction.GroupedUnfold | main.py:227-229 | (helper) the comma-free text of a grouped count is that of its thousands followed by the padded last group |
| Extraction.CleanedCountRoundTrip | main.py:224-230 | (helper) cleaning `"(" + Grouped(n) + ")"` leaves a non-empty digit string whose value is `n` |
| Extraction.ReviewCountExample | main.py:227-229 | `"(8,822)"` is read as 8822, as the comment says |
| Extraction.NameOfTitle | main.py:203-204 | a name with no `" - "` of its own is recovered from `name + " - " + rest` |
| Extraction.RenderedName | main.py:203-204 | the title `<name> - Google Maps` gives back the name |
| Extraction.RenderedTexts | main.py:206-253 | on the page that shows a business, each text field's first match or `""` is that field, and the title and URL carry the name and the link |
| Extraction.RenderedRatings | main.py:220-233 | on the page that shows a business, the average element exists exactly when the average does, and the count element then reads back the count |
| Extraction.ExtractRendered | main.py:202-253 | extraction gives back every business a page can show, all nine fields |
| Scrape.BusinessList.constructor | main.py:183 | a new list holds no business |
| Scrape.BusinessList.Append | main.py:266 | appending adds the business at the end and changes nothing else |
| Scrape.ScrapeListings | main.py:183-268 | the listing loop leaves in the list exactly the businesses of the listings whose attempt succeeded, in listing order |
| Scrape.Attempt | main.py:186-268 | a click that raised is `ClickFailed`; an opened listing succeeds exactly when its ratings can be read, and then gives a business with every string field set; `AttemptsAt` places each attempt in the loop |
| Scrape.Attempts | main.py:186-188 | one outcome per listing; `AttemptsAt` states the outcome at each position |
| Scrape.Successes | main.py:186-268 | no more values than outcomes; `SuccessesIff` and `SuccessesAppend` state which and in what order |
| Scrape.Accumulated | main.py:186-268 | at most one business per listing; `AccumulatedIff` states which |
| Scrape.SuccessesAppend | main.py:186-268 | keeping the successful outcomes respects concatenation |
| Scrape.SuccessesIff | main.py:188-268 | a value is kept exactly when some outcome is a success with it |
| Scrape.AttemptsAppend | main.py:186-188 | the outcomes of two runs of listings are those of the first followed by those of the second |
| Scrape.AttemptsAt | main.py:186-188 | the outcome at each position is the attempt of the listing at that position |
| Scrape.AccumulatedAppend | main.py:186-268 | the businesses of two runs of listings are those of the first followed by those of the second |
| Scrape.AccumulatedIff | main.py:188-268 | at most one business per listing, and a business is collected exactly when some listing's whole attempt produced it |
| Scrape.AccumulatedComplete | main.py:202-266 | no partially filled business is ever appended: all string fields of every collected business are set |
| Scrape.OutputName | main.py:274 | the file name is `google_maps_data_`, the keyword, `_` and the date, with every space of the keyword and the date turned into `_`, so it holds no space |
| Scrape.OutputNameIgnoresSpaces | main.py:273-278 | two keywords, and two dates, that agree once their spaces are turned into `_` give the same file name, so both sessions save under the same two paths |
| Scrape.OutputNameExample | main.py:274 | `coffee shop` and `coffee_shop` on the same date both give `google_maps_data_coffee_shop_<date>` |
| Scrape.RunSession | main.py:92-278 | a session fails with `MissingSearch` when the keyword is absent or empty, then with `TotalMissing` when `--total` is absent, then with `NeverSettled` when discovery does not stop; otherwise it yields the file name and the businesses collected from the discovered listings |
| Scrape.Clicks | main.py:186-188 | one click outcome per discovered listing |
| Scrape.CollectedWithinTotal | main.py:146-154 | with a non-negative target, a session collects at most `total` businesses |
| Expansion.FilterEntry | parallel_main.py:30 | an entry `x.strip().lower()` is already stripped and lower-cased, and holds no comma when `x` holds none |
| Expansion.FilterList | parallel_main.py:29-30 | one entry per comma-separated piece, the normalised piece; every entry is stripped, lower-cased and free of commas |
| Expansion.FilterListJoin | parallel_main.py:29-30 | a comma-joined list of stripped, lower-cased, comma-free entries is read back as exactly those entries |
| Expansion.FilterListSingle | parallel_main.py:29-30 | an argument without a comma and without surrounding whitespace is the one-entry list of its lower-cased form |
| Expansion.SearchInput | parallel_main.py:53 | an input is the state name, a space, then the city, a space and the zip, then a space and the keyword, in that order |
| Expansion.SearchInputs | parallel_main.py:51-54 | one input per row, the `i`-th formatted from the `i`-th row |
| Expansion.SearchInputsEnd | parallel_main.py:53 | every input ends with a space and the keyword |
| Expansion.FormatInputs | parallel_main.py:51-54 | the loop builds exactly the inputs of the rows, in order |
| Expansion.ExpandInputs | parallel_main.py:22-54 | the filtering and the input loop give exactly the specified expansion, error included |
| Expansion.Selected | parallel_main.py:22-37 | the filtered table is no longer than the table; `SelectedIsSinglePass` states its rows |
| Expansion.Expanded | parallel_main.py:22-54 | a successful expansion had a keyword, gives between one input and one per table row, and every input ends with a space and the keyword; `ExpandedMeaning` states it exactly |
| Expansion.LowerColumn | parallel_main.py:31 | lower-casing a column keeps the rows in place and lower-cases that one column of each |
| Expansion.KeepIn | parallel_main.py:32 | `isin` keeps no more rows than the table; `KeepInMembers` states which |
| Expansion.KeepInMembers | parallel_main.py:32 | a row is kept exactly when it is in the table and its cell is one of the wanted values |
| Expansion.LowerColumnAppend | parallel_main.py:31 | lower-casing a column acts row by row |
| Expansion.KeepInAppend | parallel_main.py:32 | the `isin` filter acts row by row and keeps table order |
| Expansion.KeepInAppendStep | parallel_main.py:32 | (helper) one more row on the right, given the split for the rows before it |
| Expansion.KeepInSingle | parallel_main.py:32 | (helper) a one-row table is kept exactly when its cell is wanted |
| Expansion.CityStageSingle | parallel_main.py:31-32 | (helper) the city stage on a one-row table |
| Expansion.IdStageSingle | parallel_main.py:36-37 | (helper) the state-id stage on a table of at most one already lower-cased row |
| Expansion.SelectedAppend | parallel_main.py:22-37 | the whole filtering stage acts row by row |
| Expansion.SelectedSingle | parallel_main.py:22-37 | a one-row table keeps its normalized row exactly when the row passes the given filters |
| Expansion.SelectedIsSinglePass | parallel_main.py:28-37 | filtering by city and then by state id equals one pass that keeps the normalized rows passing both filters, in table order |
| Expansion.SinglePassSound | parallel_main.py:28-37 | every emitted row comes from a table row that passes both filters |
| Expansion.SinglePassComplete | parallel_main.py:28-37 | every table row that passes both filters is emitted, normalized |
| Expansion.SinglePassIff | parallel_main.py:28-37 | a row is emitted exactly when some table row passes both filters and normalizes to it |
| Expansion.ExpandedMeaning | parallel_main.py:22-54 | the errors come in the order the code checks them (missing keyword, no filter, no match); otherwise there is one input per surviving row, in table order |
| Expansion.EmittedCityLowercase | parallel_main.py:31 | with a city filter, every emitted city and state id is already lower-case |
| Expansion.ExpandedSingle | parallel_main.py:22-54 | a one-row table whose row passes the filters expands to the single input of its normalized row |
| Expansion.BoutiqueExample | parallel_main.py:49-53 | `boutique` with `--city "Los Angeles"` on (California, CA, Los Angeles, 90001) yields exactly `California los angeles 90001 boutique` |
| Expansion.ScraperCommand | parallel_main.py:8-9 | the command is the fixed `python main.py -s="` prefix, the stripped input and the fixed `" -t=200` suffix |
| Merge.PathJoin | merge_data.py:16 | `os.path.join` on POSIX ends with the file name and, for a relative name, starts with the root |
| Merge.PathJoinBelow | merge_data.py:16 | `os.path.join` of a directory not ending in a separator and a relative name inserts exactly one `/` between them |
| Merge.FoundIn | merge_data.py:14-16 | one walk entry contributes no more paths than it has files; `FoundInSound` and `FoundInComplete` state which |
| Merge.FoundFiles | merge_data.py:9-17 | (no contract of its own) the value of `find_files`; `FoundFilesIff`, `FoundFilesSound`, `FoundFilesComplete` and `FoundFilesHaveExtension` state which paths it holds |
| Merge.FindFiles | merge_data.py:9-17 | the nested loops over the walk return exactly the specified found files |
| Merge.FoundInSound | merge_data.py:14-16 | every path one walk entry contributes is the root joined with one of its files that has the extension |
| Merge.FoundInComplete | merge_data.py:14-16 | every file of an entry with the extension is contributed, joined with the root |
| Merge.FoundFilesSound | merge_data.py:13-17 | every found path comes from some walk entry and some file of it with the extension |
| Merge.FoundFilesComplete | merge_data.py:13-17 | every file with the extension, in every walk entry, is found |
| Merge.FoundFilesIff | merge_data.py:13-17 | a path is found exactly when it is some entry's root joined with one of its files that has the extension |
| Merge.FoundFilesHaveExtension | merge_data.py:15-16 | every found path ends with the extension |
| Merge.FoundFilesAppend | merge_data.py:13-17 | the paths of a walk split in two are those of the first part followed by those of the second, so `find_files` lists them in walk order |
| Merge.SegmentLength | merge_data.py:25 | the length of the leading run of non-separators |
| Merge.RunLength | merge_data.py:25 | the length of the leading run of `/` and `\` |
| Merge.SplitPath | merge_data.py:25 | `re.split(r"[\\/]+", path)` gives at least one piece and no piece contains a separator; `SplitPathRun` and its corollaries state where it cuts |
| Merge.RunLengthIs | merge_data.py:25 | (helper) the run length is the length of any leading separator run that is not followed by a separator |
| Merge.SplitPathRun | merge_data.py:25 | a separator-free piece, then a run of `/` and `\` of any length and mix, then a rest that is empty or starts with no separator: the whole run is one cut, giving that piece and the pieces of the rest |
| Merge.SplitPathLeadingRun | merge_data.py:25 | a path that starts with a separator run has an empty first piece |
| Merge.SplitPathTrailingRun | merge_data.py:25 | a piece followed by a trailing separator run splits into that piece and an empty last piece |
| Merge.SplitPathJoin | merge_data.py:25 | splitting a join, by `/` or by `\`, of separator-free pieces, all but the first non-empty, gives back the pieces |
| Merge.LocationOf | merge_data.py:25-26 | reading State and City fails exactly when the path has fewer than three pieces, and then names the path. On success State and City have the lengths of pieces 1 and 2 and contain no `_` and no separator |
| Merge.LocationOfPieces | merge_data.py:26 | (helper, an unfolding of `LocationOf`) State and City are pieces 1 and 2 with `_` read as a space |
| Merge.StateCityPath | merge_data.py:13-16 | the walk's path for `output/<state>/<city>/<file>` is the `/`-join of the four pieces |
| Merge.JoinFour | merge_data.py:13-16 | (helper) a four-piece join written out |
| Merge.LocatedByStateAndCity | merge_data.py:21-26 | a file in `output/<State>/<City>/` is tagged with those directory names, `_` read as a space |
| Merge.BackslashPathLocated | merge_data.py:25-26 | a path whose four pieces are joined by `\` is located by its directory names too; a path that mixes `/` and `\`, as `os.walk("output/")` gives on Windows, is covered by `SplitPathRun` |
| Merge.ShallowFileCityIsFileName | merge_data.py:25-26 | a file directly under a State directory is accepted, and its City is the file's own name |
| Merge.FlatFileNotLocated | merge_data.py:25-26 | a file directly under `output/` has only two pieces and makes the merge fail with `IndexError` |
| Merge.SessionOutputNotLocated | merge_data.py:21-26 | the spreadsheet a `main.py` session writes lies flat under `output/`, and the merge cannot locate it |
| Merge.CombinedPath | merge_data.py:35 | (no contract of its own) the file the merge writes, `output/combined_data_<date>.xlsx`; `MergeOutputs` writes there and `CombinedOutputNotLocated` shows a rerun stops on it |
| Merge.CombinedOutputNotLocated | merge_data.py:35 | the merge's own output lies flat under `output/`, so a second merge stops on it |
| Merge.Tag | merge_data.py:30-31 | (no contract of its own) setting the State and City columns of one row; `TagColumns` states the result |
| Merge.TagColumns | merge_data.py:30-31 | a tagged row has the row's columns plus State and City, holds the file's State and City there, and keeps every other cell |
| Merge.TagAll | merge_data.py:30-31 | tagging keeps the number of rows and tags the `i`-th row into the `i`-th |
| Merge.Dedup | merge_data.py:29 | `drop_duplicates` keeps no more rows than the table; `DedupMembers`, `DedupDistinct`, `DedupOfDistinct` and `DedupAppend` state which and in what order |
| Merge.Without | merge_data.py:32-33 | (helper of `DedupAppend`) removing seen rows keeps no more rows; `WithoutMembers` states which |
| Merge.DedupMembers | merge_data.py:29 | `drop_duplicates` keeps a row exactly when the table holds it |
| Merge.DedupDistinct | merge_data.py:33 | after `drop_duplicates` no row occurs twice |
| Merge.DedupOfDistinct | merge_data.py:29 | a table without duplicates is left as it is |
| Merge.DedupIdempotent | merge_data.py:33 | dropping duplicates twice drops nothing more |
| Merge.DedupSnoc | merge_data.py:29 | (helper, an unfolding of `Dedup`) one more row is kept exactly when it has not been seen |
| Merge.DedupAppendSeen | merge_data.py:32-33 | (helper) a row already seen in the first table adds nothing when it is appended |
| Merge.WithoutMembers | merge_data.py:32-33 | the rows of a table after the rows already seen are removed are exactly those not seen |
| Merge.DedupAppend | merge_data.py:32-33 | dropping duplicates from a concatenation keeps the first table's distinct rows and then the unseen distinct rows of the second |
| Merge.WithoutDedup | merge_data.py:29-33 | removing seen rows and dropping duplicates commute |
| Merge.WithoutSameMembers | merge_data.py:32-33 | removing the rows of two tables with the same members gives the same result |
| Merge.DedupConcatDedup | merge_data.py:29-33 | the final drop sees through the per-file drops: dropping duplicates from the concatenation of the de-duplicated tables equals dropping them from the plain concatenation |
| Merge.TagAllMember | merge_data.py:30-31 | a row is in the tagged table exactly when it is the tag of some original row |
| Merge.TagAllAppend | merge_data.py:30-32 | tagging acts row by row across a concatenation |
| Merge.DedupTagAll | merge_data.py:29-33 | de-duplicating, tagging and de-duplicating again equals tagging the raw rows and de-duplicating once |
| Merge.CombinedStep | merge_data.py:24-32 | (helper, an unfolding of `Combined`) one more file extends the accumulated table by that file's de-duplicated, tagged rows, or ends it with that file's error |
| Merge.CombinedPrefixFailure | merge_data.py:24-26 | once a prefix of the files fails, the whole loop fails the same way |
| Merge.Combined | merge_data.py:22-33 | (no contract of its own) `combined_df` after the loop, or the first path without State and City; `CombinedFailsIff`, `CombinedSuccessAll` and `CombinedFailureFirst` state when it fails, and `MergedRows` what its rows become |
| Merge.Merged | merge_data.py:24-33 | the written table fails exactly when the loop does, has no duplicate row and no more rows than the loop's table |
| Merge.MergeOutputs | merge_data.py:20-35 | the merge either fails with the first path's `IndexError` and writes nothing, or writes exactly the specified merged table to `output/combined_data_<date>.xlsx` |
| Merge.CombinedSuccessAll | merge_data.py:24-26 | a loop that runs to its end found a State and City in every path |
| Merge.CombinedFailureFirst | merge_data.py:24-26 | a loop that stops names the first path without a State and City, and every path before it had one |
| Merge.CombinedFailsIff | merge_data.py:24-26 | the merge fails exactly when some found path lacks a State and City, and then names the first such path |
| Merge.PerFileDedupRedundant | merge_data.py:29-33 | the per-file `drop_duplicates` changes nothing in the written table: the merge fails exactly when the reference (no per-file drop) fails, and otherwise both give the same table after the final drop |
| Merge.TaggedLength | merge_data.py:24-32 | the reference concatenation holds as many rows as the files do |
| Merge.TaggedSound | merge_data.py:24-32 | every row of the reference is the tag of some row of some located file |
| Merge.TaggedSnoc | merge_data.py:24-32 | (helper, an unfolding of `Tagged`) one more file succeeds when the files before it and its path do, and then appends its tagged rows |
| Merge.TaggedComplete | merge_data.py:24-32 | every row of every file is in the reference, tagged with that file's State and City |
| Merge.Tagged | merge_data.py:24-32 | (no contract of its own) the reference table of every file's raw rows tagged and concatenated; `TaggedRows` states its rows and `TaggedLength` its size |
| Merge.TaggedRows | merge_data.py:24-32 | the reference holds exactly the tags of the files' rows, as many as the files hold |
| Merge.MergedRows | merge_data.py:24-33 | the written table has no duplicate row and no more rows than the files hold, and a row is in it exactly when it is some found file's row tagged with that file's State and City |
| Merge.MergeStopsOnSessionOutput | merge_data.py:21-26 | a merge over an `output/` tree that holds a session's flat spreadsheet writes nothing and fails |

## Left out

- Playwright is not modelled: the browser, the page, scrolling, hovering,
  waiting, clicks and `inner_text`. The page is given as `views`, `Clicked`
  and `Page`. In particular the hover of line 137 waits for a listing anchor
  before the loop starts; on a page with no listing it times out there,
  which the model does not capture (`EmptyFirstViewStops` is about the loop
  alone).
- Discovery.Discover: the views are a finite sequence. When the loop has not
  stopped by the last view, the model returns `None`, where the real loop
  would go on scrolling.
- The three count reads (lines 146-150, 161-165 and 173-175) and the
  `.all()` at lines 152-154 and 167-169 are all taken from the same view.
  The live page could change between these calls.
- Floating point is not modelled: `float()` of the average rating is the
  parameter `parseAverage`, and the average is a `real`.
- Extraction.ParseReviewCount: it accepts only a non-empty run of ASCII
  digits. Python's `int()` also accepts surrounding whitespace, a sign, `_`
  between digits and non-ASCII digits.
- Text.Lower and Text.Strip work on ASCII only. Python's Unicode case
  mapping and whitespace set are not modelled.
- The printing is left out: the `print` calls, the `tqdm` progress bars and
  the timing message.
- The exception message printed at line 268 is left out. The model keeps the
  reason for the failure (`ListingError`), not its text.
- `argparse` is left out: the arguments come in already parsed as `Option`
  values. So is `sys.exit()`, which becomes an error result.
- `datetime.now()` is the parameter `today`.
- DataFrame serialisation is not modelled: `to_excel`, `to_csv`,
  `json_normalize`, `os.makedirs` and the `dataframe()` method. A session's
  result is its file name and its list of businesses. `Scrape.ExcelPath`
  and `Scrape.CsvPath` give the two paths.
- `pd.read_excel` is the parameter `read`. Cell types, NaN and the zip's
  numeric formatting are not modelled: each cell is the text the f-string
  prints, and an absent key is an empty cell.
- The column set of the concatenation is not modelled. `pd.concat` unions
  the columns of differently shaped tables; here each row keeps its own
  columns.
- `reset_index` and the DataFrame index are not modelled (line 34). The
  index is dropped before writing, so it does not reach the output.
- `os.walk` is the parameter `walk`, and its traversal order is taken as
  given. The `dirs` list is not used by the code, and symbolic links and
  permission errors are not modelled.
- `multiprocessing.Pool` and `os.system` are not modelled: the process pool,
  the number of workers, parallel execution and the shell. The fan-out ends
  at the command line of one input (`Expansion.ScraperCommand`); `pool.map`
  over the inputs is not modelled. Shell quoting of a keyword that contains
  `"` is not modelled.
- The commented-out coordinate extraction and share-link code
  (`main.py` lines 74-79, 235-237, 254-265) is not modelled.
- Merge.Dedup and Merge.Without: their own contracts only bound the length.
  Their meaning (members, distinctness, order, idempotence) is in the
  lemmas `DedupMembers`, `DedupDistinct`, `DedupOfDistinct`,
  `DedupIdempotent`, `DedupAppend` and `WithoutMembers`.
- Merge.Tag: it has no contract of its own. What it does to a row is stated
  by `TagColumns`.
- Merge.FoundFiles: it has no contract of its own. Which paths it holds is
  stated by `FoundFilesIff`, `FoundFilesSound`, `FoundFilesComplete` and
  `FoundFilesHaveExtension`.
- Merge.FoundIn, Expansion.KeepIn, Scrape.Attempts and Scrape.Successes:
  their own contracts only bound the length. Their meaning
  is in the Sound/Complete lemmas, `KeepInMembers`, `AttemptsAt` and
  `SuccessesIff`.
- Expansion.Selected, Expansion.Expanded, Scrape.Accumulated, Merge.Merged,
  Discovery.DiscoverFrom and Discovery.Discovered state a bound or a shape
  of the result only. Their meaning is in `SelectedIsSinglePass`,
  `ExpandedMeaning`, `AccumulatedIff`, `MergedRows`, `DiscoverFromFirstStop`
  and `DiscoveryIsFirstStop`.
- Text.Truthy, Text.EndsWith, Discovery.Anchors, Discovery.Parents,
  Discovery.Kept, Extraction.FirstOrEmpty, Extraction.DecimalValue and
  Merge.CombinedPath are definitions with no contract of their own. Each is
  used in the contracts of the members named in its row, which state what
  it means.
- Merge.Combined and Merge.Tagged: they have no contract of their own, and
  are characterised by `CombinedFailsIff` and `TaggedRows`.
- Merge.PathJoin follows POSIX `os.path.join`. Windows joining, with `\`,
  drive letters and `/` as a second separator, is not modelled. The split
  of line 25 is modelled for both separators, and `BackslashPathLocated`
  covers paths joined by `\`.
