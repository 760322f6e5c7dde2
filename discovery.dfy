/** The listing-discovery loop of `main.py` (lines 141-181): scroll the result
    list, count the place anchors, and stop once `total` of them are visible
    or once a scroll brings no new ones.

    The live page becomes `views`: `views[i]` is the list of anchors matched
    by the place locator after the i-th scroll and pause, so its length is
    the count the loop reads in that iteration. When the loop has not
    stopped by the end of `views`, the model answers `None`: the real loop
    would keep scrolling.

    On `total`: lines 98-101 compute a default of 1_000_000 when `--total` is
    absent or zero, but lines 104-109 parse the arguments again and set
    `total = args.total`, so the default never reaches the loop. Here
    `total` is that parsed integer; the session in scrape.dfy handles the
    absent case. */
module Discovery {
  import opened Wrappers

  /** What the loop keeps: in the truncating branch each anchor is replaced
      by its parent element (`listing.locator("xpath=..")`, line 155); in the
      no-growth branch the anchors themselves are kept (line 167-169). */
  datatype Handle<L> = Anchor(anchor: L) | Parent(child: L)

  /** Where the loop stopped and the listings it kept. */
  datatype Stop<L> = Stop(iteration: nat, listings: seq<Handle<L>>)

  /** Python's `s[:n]`; a negative `n` drops `-n` elements from the end. */
  function PyPrefix<T>(s: seq<T>, n: int): (r: seq<T>)
    ensures n >= 0 ==> |r| == if n <= |s| then n else |s|
    ensures n < 0 ==> |r| == if |s| + n >= 0 then |s| + n else 0
    ensures r <= s
  {
    if n >= 0 then (if n <= |s| then s[..n] else s)
    else if |s| + n >= 0 then s[..|s| + n]
    else []
  }

  function Anchors<L>(s: seq<L>): seq<Handle<L>>
  {
    seq(|s|, i requires 0 <= i < |s| => Anchor(s[i]))
  }

  function Parents<L>(s: seq<L>): seq<Handle<L>>
  {
    seq(|s|, i requires 0 <= i < |s| => Parent(s[i]))
  }

  /** The count remembered when iteration `i` starts: 0 before the first
      scroll, the previous iteration's count afterwards. */
  function Prev<L>(views: seq<seq<L>>, i: nat): nat
    requires i <= |views|
  {
    if i == 0 then 0 else |views[i - 1]|
  }

  /** Iteration `i` leaves the loop: enough anchors, or no growth. */
  predicate Stops<L>(total: int, views: seq<seq<L>>, i: nat)
    requires i < |views|
  {
    |views[i]| >= total || |views[i]| == Prev(views, i)
  }

  /** The listings kept by a stopping iteration that saw `view`. */
  function Kept<L>(total: int, view: seq<L>): seq<Handle<L>>
  {
    if |view| >= total then Parents(PyPrefix(view, total)) else Anchors(view)
  }

  /** The loop from iteration `i` on, with `prev` as `previously_counted`. */
  function DiscoverFrom<L>(total: int, views: seq<seq<L>>, i: nat, prev: nat): (r: Option<Stop<L>>)
    ensures r.Some? ==> i <= r.value.iteration < |views|
    decreases |views| - i
  {
    if i >= |views| then None
    else if |views[i]| >= total then Some(Stop(i, Parents(PyPrefix(views[i], total))))
    else if |views[i]| == prev then Some(Stop(i, Anchors(views[i])))
    else DiscoverFrom(total, views, i + 1, |views[i]|)
  }

  /** The whole loop: `previously_counted` starts at 0. */
  function Discovered<L>(total: int, views: seq<seq<L>>): (r: Option<Stop<L>>)
    ensures r.Some? ==> r.value.iteration < |views|
  {
    DiscoverFrom(total, views, 0, 0)
  }

  /** The loop of lines 141-181, over the observed views. */
  method Discover<L>(total: int, views: seq<seq<L>>) returns (r: Option<Stop<L>>)
    ensures r == Discovered(total, views)
  {
    var previouslyCounted: nat := 0;
    var i := 0;
    while i < |views|
      invariant i <= |views|
      invariant DiscoverFrom(total, views, i, previouslyCounted) == Discovered(total, views)
    {
      var count := |views[i]|;
      if count >= total {
        return Some(Stop(i, Parents(PyPrefix(views[i], total))));
      } else if count == previouslyCounted {
        return Some(Stop(i, Anchors(views[i])));
      }
      previouslyCounted := count;
      i := i + 1;
    }
    return None;
  }

  /** The loop stops at the first iteration that meets a stopping condition,
      keeping what `Kept` says, and does not stop at all when none does. */
  lemma {:induction false} DiscoverFromFirstStop<L>(total: int, views: seq<seq<L>>, i: nat)
    requires i <= |views|
    ensures match DiscoverFrom(total, views, i, Prev(views, i))
      case None =>
        forall j :: i <= j < |views| ==> !Stops(total, views, j)
      case Some(s) =>
        && i <= s.iteration < |views|
        && Stops(total, views, s.iteration)
        && (forall j :: i <= j < s.iteration ==> !Stops(total, views, j))
        && s.listings == Kept(total, views[s.iteration])
    decreases |views| - i
  {
    if i < |views| && !Stops(total, views, i) {
      assert Prev(views, i + 1) == |views[i]|;
      DiscoverFromFirstStop(total, views, i + 1);
    }
  }

  /** Discovery returns the first stopping iteration, or `None` when no
      observed iteration stops. */
  lemma DiscoveryIsFirstStop<L>(total: int, views: seq<seq<L>>)
    ensures match Discovered(total, views)
      case None =>
        forall j :: 0 <= j < |views| ==> !Stops(total, views, j)
      case Some(s) =>
        && s.iteration < |views|
        && Stops(total, views, s.iteration)
        && (forall j :: 0 <= j < s.iteration ==> !Stops(total, views, j))
        && s.listings == Kept(total, views[s.iteration])
  {
    DiscoverFromFirstStop(total, views, 0);
  }

  /** Once the count reaches `total` (a natural number), the loop keeps
      exactly the parents of the first `total` anchors; below `total`, it
      keeps every current anchor. Either way at most `total` listings, in
      the order of the page. */
  lemma DiscoveredWithinTotal<L>(total: int, views: seq<seq<L>>)
    requires total >= 0
    requires Discovered(total, views).Some?
    ensures var s := Discovered(total, views).value;
      && s.iteration < |views|
      && |s.listings| <= total
      && (|views[s.iteration]| >= total ==> s.listings == Parents(views[s.iteration][..total]))
      && (|views[s.iteration]| < total ==> s.listings == Anchors(views[s.iteration]))
  {
    DiscoveryIsFirstStop(total, views);
  }

  /** A first view with no anchor stops the loop at once with no listing,
      since `previously_counted` starts at 0. */
  lemma EmptyFirstViewStops<L>(total: int, views: seq<seq<L>>)
    requires |views| > 0 && views[0] == []
    ensures Discovered(total, views) == Some(Stop(0, []))
  {
    assert PyPrefix(views[0], total) == [];
    assert Parents<L>([]) == [] && Anchors<L>([]) == [];
  }

  /** Without a stop, every iteration up to `j` saw more anchors than the one
      before, so iteration `j` sees at least `j + 1`. */
  lemma {:induction false} GrowthWithoutStop<L>(total: int, views: seq<seq<L>>, j: nat)
    requires j < |views|
    requires forall a, b :: 0 <= a <= b < |views| ==> |views[a]| <= |views[b]|
    requires forall k :: 0 <= k <= j ==> !Stops(total, views, k)
    ensures |views[j]| >= j + 1
  {
    if j > 0 {
      GrowthWithoutStop(total, views, j - 1);
      assert !Stops(total, views, j);
    } else {
      assert !Stops(total, views, 0);
    }
  }

  /** The "not run infinitely" intent of lines 159-160: when the counts never
      decrease and never exceed `n`, the loop stops within `n + 1`
      iterations. */
  lemma DiscoveryTerminates<L>(total: int, views: seq<seq<L>>, n: nat)
    requires |views| > n
    requires forall a, b :: 0 <= a <= b < |views| ==> |views[a]| <= |views[b]|
    requires forall k :: 0 <= k < |views| ==> |views[k]| <= n
    ensures Discovered(total, views).Some?
    ensures Discovered(total, views).value.iteration <= n
  {
    DiscoveryIsFirstStop(total, views);
    if Discovered(total, views).None? || Discovered(total, views).value.iteration > n {
      GrowthWithoutStop(total, views, n);
      assert false;
    }
  }
}
