/** Field extraction for one opened listing (`main.py`, lines 14-28 and
    192-253): seven locators are looked up on the rendered place page, five
    text fields default to the empty string, the two rating fields are
    coupled, the name comes from the page title and the link from the URL.

    The rendered page becomes a `Page`: its title, its URL, and for each
    locator the inner texts of the elements it matches, in document order (a
    locator missing from the map matches nothing). Parsing the average
    rating with `float()` is a parameter, `parseAverage`, that answers
    `None` where Python raises `ValueError`. */
module Extraction {
  import opened Wrappers

  /** The XPath locators of lines 192-201, by the field each one reads. */
  datatype Locator = Address | Website | PhoneNumber | ReviewsAverage | ReviewsCount | Category | Price

  /** A rendered place page, as far as extraction reads it. */
  datatype Page = Page(title: string, url: string, found: map<Locator, seq<string>>)

  /** The inner texts of `page.locator(xpath).all()` for the locator `l`. */
  function Matches(page: Page, l: Locator): seq<string>
  {
    if l in page.found then page.found[l] else []
  }

  /** The `Business` dataclass: every field defaults to `None`. */
  datatype Business = Business(
    name: Option<string>,
    address: Option<string>,
    category: Option<string>,
    reviewsCount: Option<int>,
    reviewsAverage: Option<real>,
    price: Option<string>,
    phoneNumber: Option<string>,
    website: Option<string>,
    link: Option<string>)

  /** `Business()`. */
  const EMPTY_BUSINESS := Business(None, None, None, None, None, None, None, None, None)

  /** The five fields that take the first match's text or `""`. */
  predicate IsTextField(l: Locator)
  {
    l == Address || l == Website || l == PhoneNumber || l == Category || l == Price
  }

  function Field(b: Business, l: Locator): Option<string>
    requires IsTextField(l)
  {
    match l
    case Address => b.address
    case Website => b.website
    case PhoneNumber => b.phoneNumber
    case Category => b.category
    case Price => b.price
  }

  /** The field policy of lines 206-219 and 240-250. */
  function FirstOrEmpty(page: Page, l: Locator): string
  {
    if |Matches(page, l)| > 0 then Matches(page, l)[0] else ""
  }

  /** Every string field is set: what an extraction that ran to its end leaves. */
  predicate Complete(b: Business)
  {
    && b.name.Some? && b.address.Some? && b.category.Some? && b.price.Some?
    && b.phoneNumber.Some? && b.website.Some? && b.link.Some?
  }

  // ----- the name: `page.title().split(" - ")[0]` (line 204) -----

  /** `" - "` starts at position `i` of `s`. */
  predicate SepAt(s: string, i: int)
  {
    0 <= i && i + 3 <= |s| && s[i..i + 3] == " - "
  }

  /** The first position at or after `i` where `" - "` starts, or `|s|`. */
  function FirstSepFrom(s: string, i: nat): (k: nat)
    requires i <= |s|
    ensures i <= k <= |s|
    ensures forall j :: i <= j < k ==> !SepAt(s, j)
    ensures k < |s| ==> SepAt(s, k)
    decreases |s| - i
  {
    if i + 3 > |s| then |s|
    else if SepAt(s, i) then i
    else FirstSepFrom(s, i + 1)
  }

  /** The part of the title before its first `" - "`, or the whole title when
      there is none; it is a prefix of the title and holds no `" - "`. */
  function NameOf(title: string): (name: string)
    ensures name <= title
    ensures forall j :: 0 <= j < |name| ==> !SepAt(title, j) && !SepAt(name, j)
    ensures |name| < |title| ==> SepAt(title, |name|)
    ensures |name| == |title| <==> forall j :: 0 <= j < |title| ==> !SepAt(title, j)
  {
    var k := FirstSepFrom(title, 0);
    assert forall j :: 0 <= j < k && SepAt(title[..k], j) ==> SepAt(title, j);
    title[..k]
  }

  // ----- the review count: `int(text.replace(",", "")[1:-1])` (lines 224-230) -----

  /** `s.replace(",", "")`. */
  function RemoveCommas(s: string): (r: string)
    ensures ',' !in r
  {
    if s == [] then [] else (if s[0] == ',' then [] else [s[0]]) + RemoveCommas(s[1..])
  }

  /** `s[1:-1]`: without its first and last character; `""` when shorter than 2. */
  function Unbracket(s: string): (r: string)
    ensures |s| >= 2 ==> s == [s[0]] + r + [s[|s| - 1]]
    ensures |s| < 2 ==> r == []
  {
    if |s| >= 2 then s[1..|s| - 1] else []
  }

  predicate AllDigits(d: string)
  {
    forall i :: 0 <= i < |d| ==> '0' <= d[i] <= '9'
  }

  /** The value of a decimal numeral. */
  function DecimalValue(d: string): nat
    requires AllDigits(d)
  {
    if d == [] then 0 else DecimalValue(d[..|d| - 1]) * 10 + (d[|d| - 1] as int - '0' as int)
  }

  /** The cleaned count text and its `int()`, which fails (`ValueError`)
      unless it is a non-empty run of decimal digits. */
  function ParseReviewCount(text: string): (r: Option<nat>)
    ensures var d := Unbracket(RemoveCommas(text));
      && (r.Some? <==> |d| > 0 && AllDigits(d))
      && (r.Some? ==> r.value == DecimalValue(d))
    ensures forall n: nat :: text == "(" + Grouped(n) + ")" ==> r == Some(n)
  {
    var d := Unbracket(RemoveCommas(text));
    assert forall n: nat :: text == "(" + Grouped(n) + ")" ==> |d| > 0 && AllDigits(d) && DecimalValue(d) == n by {
      forall n: nat | text == "(" + Grouped(n) + ")"
        ensures |d| > 0 && AllDigits(d) && DecimalValue(d) == n
      {
        CleanedCountRoundTrip(n);
      }
    }
    if |d| > 0 && AllDigits(d) then Some(DecimalValue(d)) else None
  }

  // ----- one listing -----

  /** Why a listing is skipped (the `except` of lines 267-268). */
  datatype ListingError =
    | ClickFailed
    | AverageNotFloat(text: string)
    | ReviewsCountMissing
    | ReviewsCountNotInteger(text: string)

  /** The ratings can be read: there is no average, or the average parses,
      a count element exists and its cleaned text is an integer. */
  predicate RatingsReadable(page: Page, parseAverage: string -> Option<real>)
  {
    var avg := Matches(page, ReviewsAverage);
    var count := Matches(page, ReviewsCount);
    |avg| == 0 || (parseAverage(avg[0]).Some? && |count| > 0 && ParseReviewCount(count[0]).Some?)
  }

  /** What lines 202-253 produce for one opened listing. */
  function Extracted(page: Page, parseAverage: string -> Option<real>): (r: Result<Business, ListingError>)
    ensures r.Success? <==> RatingsReadable(page, parseAverage)
    ensures r.Success? ==> Complete(r.value)
    ensures r.Success? ==> forall l :: IsTextField(l) ==> Field(r.value, l) == Some(FirstOrEmpty(page, l))
    ensures r.Success? ==> r.value.name == Some(NameOf(page.title)) && r.value.link == Some(page.url)
    ensures r.Success? ==>
      var avg := Matches(page, ReviewsAverage);
      && (r.value.reviewsAverage.None? <==> |avg| == 0)
      && (r.value.reviewsCount.None? <==> |avg| == 0)
      && (|avg| > 0 ==>
            && r.value.reviewsAverage == parseAverage(avg[0])
            && r.value.reviewsCount == ParseReviewCount(Matches(page, ReviewsCount)[0]))
    ensures r.Failure? ==>
      var avg := Matches(page, ReviewsAverage);
      var count := Matches(page, ReviewsCount);
      && |avg| > 0
      && r.error == (if parseAverage(avg[0]).None? then AverageNotFloat(avg[0])
                     else if |count| == 0 then ReviewsCountMissing
                     else ReviewsCountNotInteger(count[0]))
  {
    var avg := Matches(page, ReviewsAverage);
    var count := Matches(page, ReviewsCount);
    if |avg| > 0 && parseAverage(avg[0]).None? then Failure(AverageNotFloat(avg[0]))
    else if |avg| > 0 && |count| == 0 then Failure(ReviewsCountMissing)
    else if |avg| > 0 && ParseReviewCount(count[0]).None? then Failure(ReviewsCountNotInteger(count[0]))
    else
      var average := if |avg| > 0 then parseAverage(avg[0]) else None;
      var reviews := if |avg| > 0 then ParseReviewCount(count[0]) else None;
      Success(Business(
        Some(NameOf(page.title)),
        Some(FirstOrEmpty(page, Address)),
        Some(FirstOrEmpty(page, Category)),
        reviews,
        average,
        Some(FirstOrEmpty(page, Price)),
        Some(FirstOrEmpty(page, PhoneNumber)),
        Some(FirstOrEmpty(page, Website)),
        Some(page.url)))
  }

  /** Lines 202-253: a fresh `Business()` filled in field by field; the
      first step that raises ends the listing with its error. */
  method ExtractBusiness(page: Page, parseAverage: string -> Option<real>) returns (r: Result<Business, ListingError>)
    ensures r == Extracted(page, parseAverage)
  {
    var business := EMPTY_BUSINESS;
    business := business.(name := Some(NameOf(page.title)));

    var address := Matches(page, Address);
    if |address| > 0 {
      business := business.(address := Some(address[0]));
    } else {
      business := business.(address := Some(""));
    }
    var website := Matches(page, Website);
    if |website| > 0 {
      business := business.(website := Some(website[0]));
    } else {
      business := business.(website := Some(""));
    }
    var phone := Matches(page, PhoneNumber);
    if |phone| > 0 {
      business := business.(phoneNumber := Some(phone[0]));
    } else {
      business := business.(phoneNumber := Some(""));
    }

    var avg := Matches(page, ReviewsAverage);
    if |avg| > 0 {
      var average := parseAverage(avg[0]);
      if average.None? {
        return Failure(AverageNotFloat(avg[0]));
      }
      business := business.(reviewsAverage := average);
      var count := Matches(page, ReviewsCount);
      if |count| == 0 {
        return Failure(ReviewsCountMissing);
      }
      var reviews := ParseReviewCount(count[0]);
      if reviews.None? {
        return Failure(ReviewsCountNotInteger(count[0]));
      }
      business := business.(reviewsCount := reviews);
    } else {
      business := business.(reviewsAverage := None, reviewsCount := None);
    }

    var category := Matches(page, Category);
    if |category| > 0 {
      business := business.(category := Some(category[0]));
    } else {
      business := business.(category := Some(""));
    }
    var price := Matches(page, Price);
    if |price| > 0 {
      business := business.(price := Some(price[0]));
    } else {
      business := business.(price := Some(""));
    }

    business := business.(link := Some(page.url));
    r := Success(business);
  }

  // ----- counts as the page shows them, and the round trip -----

  function Digit(k: nat): char
    requires k < 10
  {
    ('0' as int + k) as char
  }

  /** The decimal numeral of `n`. */
  function Decimal(n: nat): string
  {
    if n < 10 then [Digit(n)] else Decimal(n / 10) + [Digit(n % 10)]
  }

  /** Three digits with leading zeros. */
  function Pad3(k: nat): string
    requires k < 1000
  {
    [Digit(k / 100), Digit(k / 10 % 10), Digit(k % 10)]
  }

  /** `n` with thousands separators, as in `8,822`. */
  function Grouped(n: nat): string
  {
    if n < 1000 then Decimal(n) else Grouped(n / 1000) + "," + Pad3(n % 1000)
  }

  lemma {:induction false} RemoveCommasAppend(a: string, b: string)
    ensures RemoveCommas(a + b) == RemoveCommas(a) + RemoveCommas(b)
  {
    if a != [] {
      RemoveCommasAppend(a[1..], b);
      assert (a + b)[1..] == a[1..] + b;
    } else {
      assert a + b == b;
    }
  }

  /** A string without commas is left as it is. */
  lemma {:induction false} RemoveCommasCommaFree(s: string)
    requires ',' !in s
    ensures RemoveCommas(s) == s
  {
    if s != [] {
      assert ',' !in s[1..];
      RemoveCommasCommaFree(s[1..]);
    }
  }

  /** A single comma is removed. With `RemoveCommasCommaFree` and
      `RemoveCommasAppend` this determines `RemoveCommas` on every string. */
  lemma RemoveCommasComma()
    ensures RemoveCommas(",") == ""
  {
  }

  lemma RemoveCommasOfDigits(d: string)
    requires AllDigits(d)
    ensures RemoveCommas(d) == d
  {
    assert ',' !in d by {
      forall i | 0 <= i < |d| ensures d[i] != ',' {
        assert '0' <= d[i] <= '9';
      }
    }
    RemoveCommasCommaFree(d);
  }

  lemma DecimalAppendDigit(a: string, c: char)
    requires AllDigits(a) && '0' <= c <= '9'
    ensures AllDigits(a + [c])
    ensures DecimalValue(a + [c]) == DecimalValue(a) * 10 + (c as int - '0' as int)
  {
    assert (a + [c])[..|a|] == a;
  }

  lemma {:induction false} DecimalRoundTrip(n: nat)
    ensures |Decimal(n)| > 0 && AllDigits(Decimal(n))
    ensures DecimalValue(Decimal(n)) == n
  {
    if n >= 10 {
      DecimalRoundTrip(n / 10);
      DecimalAppendDigit(Decimal(n / 10), Digit(n % 10));
    }
  }

  lemma Pad3Digits(k: nat)
    requires k < 1000
    ensures |Pad3(k)| == 3
    ensures Pad3(k)[0] as int - '0' as int == k / 100
    ensures Pad3(k)[1] as int - '0' as int == k / 10 % 10
    ensures Pad3(k)[2] as int - '0' as int == k % 10
    ensures k == (k / 100 * 10 + k / 10 % 10) * 10 + k % 10
  {
  }

  lemma Pad3Value(a: string, k: nat)
    requires AllDigits(a) && k < 1000
    ensures AllDigits(a + Pad3(k))
    ensures DecimalValue(a + Pad3(k)) == DecimalValue(a) * 1000 + k
  {
    var p := Pad3(k);
    Pad3Digits(k);
    var a1 := a + [p[0]];
    var a2 := a1 + [p[1]];
    DecimalAppendDigit(a, p[0]);
    DecimalAppendDigit(a1, p[1]);
    DecimalAppendDigit(a2, p[2]);
    assert a + p == a2 + [p[2]];
    var v := DecimalValue(a);
    var h, t, u := k / 100, k / 10 % 10, k % 10;
    assert DecimalValue(a1) == v * 10 + h;
    assert DecimalValue(a2) == (v * 10 + h) * 10 + t;
    assert DecimalValue(a + p) == ((v * 10 + h) * 10 + t) * 10 + u;
    assert ((v * 10 + h) * 10 + t) * 10 + u == v * 1000 + ((h * 10 + t) * 10 + u);
  }

  lemma GroupedUnfold(n: nat)
    requires n >= 1000
    ensures RemoveCommas(Grouped(n)) == RemoveCommas(Grouped(n / 1000)) + Pad3(n % 1000)
  {
    var g, p := Grouped(n / 1000), Pad3(n % 1000);
    assert Grouped(n) == (g + ",") + p;
    var rg := RemoveCommas(g);
    assert RemoveCommas(g + ",") == rg by {
      RemoveCommasAppend(g, ",");
      assert RemoveCommas(",") == [];
      assert rg + [] == rg;
    }
    assert RemoveCommas(p) == p by {
      Pad3Digits(n % 1000);
      RemoveCommasOfDigits(p);
    }
    RemoveCommasAppend(g + ",", p);
  }

  /** Removing the separators from a grouped count leaves its decimal digits. */
  lemma {:induction false} GroupedDigits(n: nat)
    ensures var d := RemoveCommas(Grouped(n));
      |d| > 0 && AllDigits(d) && DecimalValue(d) == n
  {
    if n < 1000 {
      DecimalRoundTrip(n);
      RemoveCommasOfDigits(Decimal(n));
    } else {
      var q, m := n / 1000, n % 1000;
      GroupedDigits(q);
      GroupedUnfold(n);
      Pad3Value(RemoveCommas(Grouped(q)), m);
    }
  }

  /** The cleaning of lines 227-230 on a bracketed, grouped count leaves the
      decimal numeral of the count: `"(8,822)"` leaves `"8822"`. */
  lemma CleanedCountRoundTrip(n: nat)
    ensures var d := Unbracket(RemoveCommas("(" + Grouped(n) + ")"));
      |d| > 0 && AllDigits(d) && DecimalValue(d) == n
  {
    var g := Grouped(n);
    RemoveCommasAppend("(" + g, ")");
    RemoveCommasAppend("(", g);
    GroupedDigits(n);
    var d := RemoveCommas(g);
    assert RemoveCommas("(" + g + ")") == "(" + d + ")";
    assert Unbracket("(" + d + ")") == d;
  }

  /** The example of the comment on line 229. */
  lemma ReviewCountExample()
    ensures ParseReviewCount("(8,822)") == Some(8822)
  {
    assert Decimal(8) == "8";
    assert Pad3(822) == "822";
    assert Grouped(8822) == "8,822";
    assert "(" + Grouped(8822) + ")" == "(8,822)";
  }

  /** A business the page can show back: every string field set, the two
      ratings present together, a count that is a natural number, and a name
      in which the page's own `" - "` is the first one. */
  predicate Scrapable(b: Business)
  {
    && Complete(b)
    && (b.reviewsAverage.Some? <==> b.reviewsCount.Some?)
    && (b.reviewsCount.Some? ==> b.reviewsCount.value >= 0)
    && forall i :: 0 <= i < |b.name.value| ==> !SepAt(b.name.value + " - ", i)
  }

  function TextMatch(s: string): seq<string>
  {
    if s == "" then [] else [s]
  }

  /** How a place page shows a business: the title `<name> - Google Maps`,
      one element per non-empty text field, the average as `averageText` and
      the count grouped and bracketed. */
  function Rendered(b: Business, averageText: string): Page
    requires Scrapable(b)
  {
    Page(b.name.value + " - Google Maps", b.link.value, map[
      Address := TextMatch(b.address.value),
      Website := TextMatch(b.website.value),
      PhoneNumber := TextMatch(b.phoneNumber.value),
      Category := TextMatch(b.category.value),
      Price := TextMatch(b.price.value),
      ReviewsAverage := if b.reviewsAverage.Some? then [averageText] else [],
      ReviewsCount := if b.reviewsCount.Some? then ["(" + Grouped(b.reviewsCount.value) + ")"] else []])
  }

  /** The title's name is recovered when the first `" - "` is the one after it. */
  lemma NameOfTitle(name: string, rest: string)
    requires forall i :: 0 <= i < |name| ==> !SepAt(name + " - ", i)
    ensures NameOf(name + " - " + rest) == name
  {
    var p := name + " - ";
    var t := p + rest;
    assert t[|name|..|name| + 3] == " - ";
    forall i | 0 <= i < |name|
      ensures !SepAt(t, i)
    {
      assert t[i..i + 3] == p[i..i + 3];
      assert !SepAt(p, i);
    }
    var k := FirstSepFrom(t, 0);
    assert SepAt(t, |name|);
    assert k == |name|;
    assert t[..|name|] == name;
  }

  lemma TextMatchFirst(s: string)
    ensures var m := TextMatch(s); (if |m| > 0 then m[0] else "") == s
  {
  }

  /** The title `<name> - Google Maps` gives back the name. */
  lemma RenderedName(name: string)
    requires forall i :: 0 <= i < |name| ==> !SepAt(name + " - ", i)
    ensures NameOf(name + " - Google Maps") == name
  {
    NameOfTitle(name, "Google Maps");
    assert name + " - Google Maps" == name + " - " + "Google Maps";
  }

  /** What the rendered page shows of the name, the link and the text fields. */
  lemma RenderedTexts(b: Business, averageText: string)
    requires Scrapable(b)
    ensures var page := Rendered(b, averageText);
      && page.title == b.name.value + " - Google Maps" && page.url == b.link.value
      && FirstOrEmpty(page, Address) == b.address.value
      && FirstOrEmpty(page, Website) == b.website.value
      && FirstOrEmpty(page, PhoneNumber) == b.phoneNumber.value
      && FirstOrEmpty(page, Category) == b.category.value
      && FirstOrEmpty(page, Price) == b.price.value
  {
    TextMatchFirst(b.address.value);
    TextMatchFirst(b.website.value);
    TextMatchFirst(b.phoneNumber.value);
    TextMatchFirst(b.category.value);
    TextMatchFirst(b.price.value);
  }

  /** What the rendered page shows of the two ratings. */
  lemma RenderedRatings(b: Business, averageText: string)
    requires Scrapable(b)
    ensures var page := Rendered(b, averageText);
      var avg := Matches(page, ReviewsAverage);
      var count := Matches(page, ReviewsCount);
      && (|avg| == 0 <==> b.reviewsAverage.None?)
      && (|avg| > 0 ==> avg[0] == averageText && |count| > 0 && ParseReviewCount(count[0]) == b.reviewsCount)
  {
    if b.reviewsCount.Some? {
      var n := b.reviewsCount.value;
      assert ParseReviewCount("(" + Grouped(n) + ")") == Some(n);
    }
  }

  /** Extraction reads back every business the page can show: the partner of
      `Extracted`. */
  lemma ExtractRendered(b: Business, averageText: string, parseAverage: string -> Option<real>)
    requires Scrapable(b)
    requires b.reviewsAverage.Some? ==> parseAverage(averageText) == b.reviewsAverage
    ensures Extracted(Rendered(b, averageText), parseAverage) == Success(b)
  {
    RenderedName(b.name.value);
    RenderedTexts(b, averageText);
    RenderedRatings(b, averageText);
  }
}
