/** One scrape session of `main.py`: the argument checks (lines 88-109), the
    discovery loop, the loop over the discovered listings that appends each
    fully extracted business (lines 183-268), and the output file name
    (lines 92, 273-278).

    Clicking a listing and waiting is the parameter `click`: it tells what
    the page shows once a listing handle is clicked, or that the click
    raised. The date is the parameter `today` (`%Y_%m_%d`). */
module Scrape {
  import opened Wrappers
  import opened Text
  import opened Discovery
  import opened Extraction

  /** The place page after `listing.click()` and the pause, or a click that raised. */
  datatype Clicked = Opened(page: Page) | ClickTimedOut

  /** The body of the `try` for one listing. */
  function Attempt(c: Clicked, parseAverage: string -> Option<real>): (r: Result<Business, ListingError>)
    ensures c.ClickTimedOut? ==> r == Failure(ClickFailed)
    ensures r.Success? <==> c.Opened? && RatingsReadable(c.page, parseAverage)
    ensures r.Success? ==> Complete(r.value)
  {
    match c
    case Opened(page) => Extracted(page, parseAverage)
    case ClickTimedOut => Failure(ClickFailed)
  }

  /** The outcome of the `try` for every listing, in order. */
  function Attempts(clicked: seq<Clicked>, parseAverage: string -> Option<real>): (r: seq<Result<Business, ListingError>>)
    ensures |r| == |clicked|
  {
    if clicked == [] then []
    else Attempts(clicked[..|clicked| - 1], parseAverage) + [Attempt(clicked[|clicked| - 1], parseAverage)]
  }

  /** The values of the successful outcomes, in order. */
  function Successes<T, E>(rs: seq<Result<T, E>>): (r: seq<T>)
    ensures |r| <= |rs|
  {
    if rs == [] then []
    else
      var front := Successes(rs[..|rs| - 1]);
      match rs[|rs| - 1]
      case Success(v) => front + [v]
      case Failure(_) => front
  }

  /** What the listing loop appends: the businesses of the listings whose
      extraction ran to its end. */
  function Accumulated(clicked: seq<Clicked>, parseAverage: string -> Option<real>): (r: seq<Business>)
    ensures |r| <= |clicked|
  {
    Successes(Attempts(clicked, parseAverage))
  }

  /** The `BusinessList` dataclass: the businesses of one session, in the order
      they were appended. */
  class BusinessList {
    var businessList: seq<Business>

    constructor ()
      ensures businessList == []
    {
      businessList := [];
    }

    method Append(b: Business)
      modifies this
      ensures businessList == old(businessList) + [b]
    {
      businessList := businessList + [b];
    }
  }

  /** Lines 183-268: a new list, and one extraction attempt per listing; a
      listing whose attempt raises appends nothing. */
  method ScrapeListings(clicked: seq<Clicked>, parseAverage: string -> Option<real>) returns (businesses: BusinessList)
    ensures fresh(businesses)
    ensures businesses.businessList == Accumulated(clicked, parseAverage)
  {
    businesses := new BusinessList();
    for i := 0 to |clicked|
      invariant businesses.businessList == Accumulated(clicked[..i], parseAverage)
    {
      ghost var before := Attempts(clicked[..i], parseAverage);
      assert clicked[..i + 1][..i] == clicked[..i];
      assert Attempts(clicked[..i + 1], parseAverage) == before + [Attempt(clicked[i], parseAverage)];
      match clicked[i]
      case ClickTimedOut =>
      case Opened(page) =>
        var r := ExtractBusiness(page, parseAverage);
        if r.Success? {
          businesses.Append(r.value);
        }
    }
    assert clicked[..|clicked|] == clicked;
  }

  lemma SuccessesSnoc<T, E>(rs: seq<Result<T, E>>, x: Result<T, E>)
    ensures Successes(rs + [x]) == Successes(rs) + Successes([x])
  {
    assert (rs + [x])[..|rs|] == rs;
    assert [x][..0] == [];
  }

  /** Keeping the successes respects concatenation. */
  lemma {:induction false} SuccessesAppend<T, E>(a: seq<Result<T, E>>, b: seq<Result<T, E>>)
    ensures Successes(a + b) == Successes(a) + Successes(b)
    decreases |b|
  {
    if b == [] {
      assert a + b == a;
    } else {
      var b', last := b[..|b| - 1], b[|b| - 1];
      var sa, sb, sl := Successes(a), Successes(b'), Successes([last]);
      assert Successes(a + b) == (sa + sb) + sl by {
        SuccessesAppend(a, b');
        assert a + b == (a + b') + [last];
        SuccessesSnoc(a + b', last);
      }
      assert Successes(b) == sb + sl by {
        assert b == b' + [last];
        SuccessesSnoc(b', last);
      }
      assert (sa + sb) + sl == sa + (sb + sl);
    }
  }

  /** A value is kept exactly when some outcome is a success with it. */
  lemma {:induction false} SuccessesIff<T, E>(rs: seq<Result<T, E>>, v: T)
    ensures v in Successes(rs) <==> exists i :: 0 <= i < |rs| && rs[i] == Success(v)
  {
    if rs != [] {
      var n := |rs| - 1;
      var front := rs[..n];
      SuccessesIff(front, v);
      if v in Successes(rs) {
        if v in Successes(front) {
          var i :| 0 <= i < |front| && front[i] == Success(v);
          assert rs[i] == front[i];
        } else {
          assert rs[n] == Success(v);
        }
      } else {
        forall i | 0 <= i < |rs|
          ensures rs[i] != Success(v)
        {
          if i < n {
            assert rs[i] == front[i];
          }
        }
      }
    }
  }

  /** One attempt per listing, in listing order. */
  lemma {:induction false} AttemptsAppend(a: seq<Clicked>, b: seq<Clicked>, parseAverage: string -> Option<real>)
    ensures Attempts(a + b, parseAverage) == Attempts(a, parseAverage) + Attempts(b, parseAverage)
    decreases |b|
  {
    if b == [] {
      assert a + b == a;
    } else {
      AttemptsAppend(a, b[..|b| - 1], parseAverage);
      assert (a + b)[..|a + b| - 1] == a + b[..|b| - 1];
      assert (a + b)[|a + b| - 1] == b[|b| - 1];
    }
  }

  /** The outcome at each position is the attempt of that listing. */
  lemma {:induction false} AttemptsAt(clicked: seq<Clicked>, parseAverage: string -> Option<real>, i: int)
    requires 0 <= i < |clicked|
    ensures Attempts(clicked, parseAverage)[i] == Attempt(clicked[i], parseAverage)
  {
    var n := |clicked| - 1;
    if i < n {
      AttemptsAt(clicked[..n], parseAverage, i);
    }
  }

  /** The loop keeps the order of the listings: the businesses of two runs of
      listings are those of the first followed by those of the second. */
  lemma AccumulatedAppend(a: seq<Clicked>, b: seq<Clicked>, parseAverage: string -> Option<real>)
    ensures Accumulated(a + b, parseAverage) == Accumulated(a, parseAverage) + Accumulated(b, parseAverage)
  {
    AttemptsAppend(a, b, parseAverage);
    SuccessesAppend(Attempts(a, parseAverage), Attempts(b, parseAverage));
  }

  /** All-or-nothing: a business is in the result exactly when some listing's
      whole extraction produced it; at most one business per listing. */
  lemma AccumulatedIff(clicked: seq<Clicked>, parseAverage: string -> Option<real>, b: Business)
    ensures |Accumulated(clicked, parseAverage)| <= |clicked|
    ensures b in Accumulated(clicked, parseAverage) <==>
      exists i :: 0 <= i < |clicked| && Attempt(clicked[i], parseAverage) == Success(b)
  {
    var rs := Attempts(clicked, parseAverage);
    SuccessesIff(rs, b);
    forall i | 0 <= i < |clicked|
      ensures rs[i] == Attempt(clicked[i], parseAverage)
    {
      AttemptsAt(clicked, parseAverage, i);
    }
  }

  /** Every appended business has all its string fields set: no partial
      business is ever appended. */
  lemma AccumulatedComplete(clicked: seq<Clicked>, parseAverage: string -> Option<real>, b: Business)
    requires b in Accumulated(clicked, parseAverage)
    ensures Complete(b)
  {
    AccumulatedIff(clicked, parseAverage, b);
    var i :| 0 <= i < |clicked| && Attempt(clicked[i], parseAverage) == Success(b);
  }

  /** `f"google_maps_data_{search_for}_{today_date}".replace(" ", "_")`: the
      fixed prefix, the keyword and the date, joined by `_`, with every space
      of the keyword and the date turned into `_`. */
  function OutputName(search: string, today: string): (name: string)
    ensures name == "google_maps_data_" + Replace(search, ' ', '_') + "_" + Replace(today, ' ', '_')
    ensures ' ' !in name
  {
    var prefix := "google_maps_data_" + search + "_";
    ReplaceAppend(prefix, today, ' ', '_');
    ReplaceAppend("google_maps_data_" + search, "_", ' ', '_');
    ReplaceAppend("google_maps_data_", search, ' ', '_');
    ReplaceAbsent("google_maps_data_", ' ', '_');
    ReplaceAbsent("_", ' ', '_');
    Replace(prefix + today, ' ', '_')
  }

  /** The two output files of lines 60 and 71. */
  function ExcelPath(name: string): string
  {
    "output/" + name + ".xlsx"
  }

  function CsvPath(name: string): string
  {
    "output/" + name + ".csv"
  }

  /** Keywords, and dates, that agree once their spaces are turned into `_`
      get the same output name, so their sessions write to the same files. */
  lemma OutputNameIgnoresSpaces(search1: string, search2: string, today1: string, today2: string)
    requires Replace(search1, ' ', '_') == Replace(search2, ' ', '_')
    requires Replace(today1, ' ', '_') == Replace(today2, ' ', '_')
    ensures OutputName(search1, today1) == OutputName(search2, today2)
  {
  }

  /** A keyword with a space and its `_` form share the output name. */
  lemma OutputNameExample()
    ensures OutputName("coffee shop", "2024_01_31") == OutputName("coffee_shop", "2024_01_31")
    ensures OutputName("coffee shop", "2024_01_31") == "google_maps_data_coffee_shop_2024_01_31"
  {
    var a, b := Replace("coffee shop", ' ', '_'), Replace("coffee_shop", ' ', '_');
    assert a == "coffee_shop" && b == "coffee_shop";
    ReplaceAbsent("2024_01_31", ' ', '_');
  }

  /** Why a session ends before writing anything. */
  datatype SessionError =
    | MissingSearch   // `--search` absent or empty: `sys.exit()` at line 97
    | TotalMissing    // `--total` absent: `count >= None` raises `TypeError` at line 146
    | NeverSettled    // the observed views end before the discovery loop stops

  /** The name shared by the two output files and the rows written to them. */
  datatype SessionOutput = SessionOutput(fileName: string, businesses: seq<Business>)

  function Clicks<L>(listings: seq<Handle<L>>, click: Handle<L> -> Clicked): (r: seq<Clicked>)
    ensures |r| == |listings|
  {
    seq(|listings|, i requires 0 <= i < |listings| => click(listings[i]))
  }

  /** `main()` of `main.py`, from the parsed arguments to the rows and the
      file name it writes them under. */
  method RunSession<L>(search: Option<string>, total: Option<int>, today: string,
                       views: seq<seq<L>>, click: Handle<L> -> Clicked,
                       parseAverage: string -> Option<real>)
    returns (r: Result<SessionOutput, SessionError>)
    ensures !Truthy(search) ==> r == Failure(MissingSearch)
    ensures Truthy(search) && total.None? ==> r == Failure(TotalMissing)
    ensures Truthy(search) && total.Some? ==>
      match Discovered(total.value, views)
      case None => r == Failure(NeverSettled)
      case Some(stop) =>
        r == Success(SessionOutput(OutputName(search.value, today),
                                   Accumulated(Clicks(stop.listings, click), parseAverage)))
  {
    if !Truthy(search) {
      return Failure(MissingSearch);
    }
    if total.None? {
      return Failure(TotalMissing);
    }
    var stop := Discover(total.value, views);
    if stop.None? {
      return Failure(NeverSettled);
    }
    var businesses := ScrapeListings(Clicks(stop.value.listings, click), parseAverage);
    r := Success(SessionOutput(OutputName(search.value, today), businesses.businessList));
  }

  /** A session run with a non-negative `--total` writes at most that many
      businesses: `-t=200` from the fan-out caps each session at 200. */
  lemma CollectedWithinTotal<L>(total: int, views: seq<seq<L>>, click: Handle<L> -> Clicked,
                                parseAverage: string -> Option<real>)
    requires total >= 0
    requires Discovered(total, views).Some?
    ensures |Accumulated(Clicks(Discovered(total, views).value.listings, click), parseAverage)| <= total
  {
    DiscoveredWithinTotal(total, views);
  }
}
