/**
 * The kennys.ie scraper (src/bookscout/scrapers/kennys.py) without its browser: the link targets
 * the page scripts collect, and the heading, title and text of a product page, are inputs; the
 * scripts' loops and what the scraper picks from their output are computed here.
 */
module Kennys {
  import opened Wrappers
  import opened Text
  import opened Patterns
  import opened Models
  import opened Dedup
  import opened Matching
  import opened Scraping

  const Name: string := "Kennys"
  const BaseUrl: string := "https://www.kennys.ie"
  /** The text every link the scripts keep contains. */
  const Site: string := "kennys.ie"
  /** How many items the search-results script returns at most. */
  const SearchResultLimit: nat := 10
  /** How many links the fallback product-link script collects at most. */
  const FallbackLinkLimit: nat := 15

  // The ISBN tail of a product link: `-\d{10,13}(-\d)?$`

  /**
   * The tail matches at `i`: a hyphen, ten to thirteen digits, and then either the end or a
   * hyphen and one last digit before the end. With fewer digits taken the next character would
   * be a digit, so the greedy run is the only way the pattern can match.
   */
  predicate TailAt(s: string, i: nat)
    requires i <= |s|
  {
    i < |s| && s[i] == '-' &&
    var d := DigitRun(s, i + 1);
    10 <= d <= 13 &&
    (i + 1 + d == |s| || (i + 3 + d == |s| && s[i + 1 + d] == '-' && IsDigit(s[i + 2 + d])))
  }

  /** The leftmost position at or after `i` where the tail matches. */
  function TailFrom(s: string, i: nat): (r: Option<nat>)
    requires i <= |s|
    ensures r.Some? ==> i <= r.value < |s| && TailAt(s, r.value)
    ensures forall j :: i <= j <= |s| && (r.None? || j < r.value) ==> !TailAt(s, j)
    decreases |s| - i
  {
    if TailAt(s, i) then Some(i)
    else if i == |s| then None
    else TailFrom(s, i + 1)
  }

  /** The digits of the tail: the ISBN the search-results script reads from a link. */
  function TailIsbn(s: string): (r: Option<string>)
    ensures r.Some? ==> 10 <= |r.value| <= 13 && IsDigits(r.value)
  {
    match TailFrom(s, 0)
    case Some(i) =>
      var isbn := s[i + 1..i + 1 + DigitRun(s, i + 1)];
      assert forall k :: 0 <= k < |isbn| ==> isbn[k] == s[i + 1 + k];
      Some(isbn)
    case None => None
  }

  /** `re.sub(r"-\d{10,13}(-\d)?$", "", slug)`: the slug without its ISBN tail. */
  function StripIsbnTail(slug: string): string
  {
    match TailFrom(slug, 0)
    case Some(i) => slug[..i]
    case None => slug
  }

  /** The title a link's last segment gives: the ISBN tail removed, every hyphen made a space. */
  function SlugTitle(slug: string): string
  {
    Replace(StripIsbnTail(slug), "-", " ")
  }

  /** A digit run whose end is known has that length. */
  lemma DigitRunIs(s: string, i: nat, n: nat)
    requires i + n <= |s| && forall k :: i <= k < i + n ==> IsDigit(s[k])
    requires i + n == |s| || !IsDigit(s[i + n])
    ensures DigitRun(s, i) == n
  {
  }

  /** The tail runs to the end of the text, so at most one position starts it. */
  lemma TailUnique(s: string, i: nat, j: nat)
    requires i <= j <= |s| && TailAt(s, i) && TailAt(s, j)
    ensures i == j
  {
  }

  /**
   * A slug built from a base, a hyphen, an ISBN and possibly a "-1" style suffix gives back the
   * base as its title text and the ISBN as its digits.
   */
  lemma TailRoundTrip(base: string, isbn: string, suffix: string)
    requires 10 <= |isbn| <= 13 && IsDigits(isbn)
    requires suffix == "" || (|suffix| == 2 && suffix[0] == '-' && IsDigit(suffix[1]))
    ensures StripIsbnTail(base + "-" + isbn + suffix) == base
    ensures TailIsbn(base + "-" + isbn + suffix) == Some(isbn)
  {
    var s := base + "-" + isbn + suffix;
    var i := |base|;
    assert s[i] == '-';
    forall k | i + 1 <= k < i + 1 + |isbn| ensures IsDigit(s[k]) {
      assert s[k] == isbn[k - i - 1];
    }
    if suffix != "" {
      assert s[i + 1 + |isbn|] == '-';
      assert s[i + 2 + |isbn|] == suffix[1];
    }
    DigitRunIs(s, i + 1, |isbn|);
    assert TailAt(s, i);
    var j := TailFrom(s, 0).value;
    TailUnique(s, j, i);
    assert s[..i] == base;
    assert s[i + 1..i + 1 + |isbn|] == isbn;
  }

  /** No hyphen is left in a slug title. */
  lemma SlugTitleHasNoHyphen(slug: string)
    ensures '-' !in SlugTitle(slug)
  {
    var t := StripIsbnTail(slug);
    ReplaceChar(t, '-', ' ');
    assert "-" == ['-'] && " " == [' '];
  }

  // `get_search_results`: the script that reads items off the search-results page

  /**
   * The item the script builds from a result link: only non-empty kennys.ie links ending in an
   * ISBN tail give one, with the tail's digits as ISBN and the last path segment's slug title.
   */
  function LinkItem(href: string): Option<SearchResultItem>
  {
    if href != "" && Contains(href, Site) then
      match TailIsbn(href)
      case Some(isbn) => Some(SearchResultItem(Some(isbn), href, Some(SlugTitle(Last(Split(href, '/'))))))
      case None => None
    else None
  }

  /** The body of the script's loop up to its `seen` test: what one link gives. */
  method ReadLink(href: string) returns (item: Option<SearchResultItem>)
    ensures item == LinkItem(href)
    ensures item.Some? ==> item.value.isbn.Some?
  {
    item := None;
    if href != "" && Contains(href, Site) {
      var isbnMatch := TailFrom(href, 0);
      if isbnMatch.Some? {
        var i := isbnMatch.value;
        var isbn := href[i + 1..i + 1 + DigitRun(href, i + 1)];
        var parts := Split(href, '/');
        var slug := parts[|parts| - 1];
        var title := Replace(StripIsbnTail(slug), "-", " ");
        item := Some(SearchResultItem(Some(isbn), href, Some(title)));
      }
    }
  }

  /** One pass of the script's loop, up to its length test. */
  method VisitLink(hrefs: seq<string>, i: nat, results: seq<SearchResultItem>, seen: set<string>)
    returns (results': seq<SearchResultItem>, seen': set<string>)
    requires i < |hrefs|
    requires results == FirstByKey(FilterMap(hrefs[..i], LinkItem), ItemIsbn)
    requires forall k :: k in seen <==> Some(k) in KeySet(results, ItemIsbn)
    ensures results' == FirstByKey(FilterMap(hrefs[..i + 1], LinkItem), ItemIsbn)
    ensures forall k :: k in seen' <==> Some(k) in KeySet(results', ItemIsbn)
    ensures |results'| <= |results| + 1
  {
    results', seen' := results, seen;
    var done, href := hrefs[..i], hrefs[i];
    assert hrefs[..i + 1] == done + [href];
    FilterMapStep(done, href, LinkItem);
    var item := ReadLink(href);
    if item.Some? {
      results', seen' := KeepIfNew(FilterMap(done, LinkItem), results, seen, item.value);
    } else {
      assert FilterMap(done, LinkItem) + [] == FilterMap(done, LinkItem);
    }
  }

  /**
   * The search-results script: the items of the links in page order, one per ISBN, and no more
   * than ten of them (the loop stops once it holds ten).
   */
  method GetSearchResults(hrefs: seq<string>) returns (results: seq<SearchResultItem>)
    ensures results == Window(FirstByKey(FilterMap(hrefs, LinkItem), ItemIsbn), SearchResultLimit)
  {
    results := [];
    var seen: set<string> := {};
    assert KeySet(results, ItemIsbn) == {};
    var i := 0;
    while i < |hrefs|
      invariant i <= |hrefs|
      invariant results == FirstByKey(FilterMap(hrefs[..i], LinkItem), ItemIsbn)
      invariant forall k :: k in seen <==> Some(k) in KeySet(results, ItemIsbn)
      invariant |results| < SearchResultLimit
    {
      results, seen := VisitLink(hrefs, i, results, seen);
      i := i + 1;
      if |results| >= SearchResultLimit {
        CappedPrefix(hrefs, i, LinkItem, ItemIsbn, |results|);
        return;
      }
    }
    assert hrefs[..i] == hrefs;
  }

  /** At most ten items, with pairwise different ISBNs. */
  lemma SearchResultsDistinct(hrefs: seq<string>, results: seq<SearchResultItem>)
    requires results == Window(FirstByKey(FilterMap(hrefs, LinkItem), ItemIsbn), SearchResultLimit)
    ensures |results| <= SearchResultLimit
    ensures forall a, b :: 0 <= a < b < |results| ==> results[a].isbn != results[b].isbn
  {
    var all := FirstByKey(FilterMap(hrefs, LinkItem), ItemIsbn);
    FirstByKeyFacts(FilterMap(hrefs, LinkItem), ItemIsbn);
    forall a, b | 0 <= a < b < |results| ensures results[a].isbn != results[b].isbn {
      WindowAt(all, SearchResultLimit, a);
      WindowAt(all, SearchResultLimit, b);
      assert ItemIsbn(all[a]) != ItemIsbn(all[b]);
    }
  }

  /**
   * Every item comes from a kennys.ie link of the page: its URL is the link, its ISBN the
   * link's tail digits (ten to thirteen of them).
   */
  lemma SearchResultSource(hrefs: seq<string>, results: seq<SearchResultItem>, d: nat) returns (k: nat)
    requires results == Window(FirstByKey(FilterMap(hrefs, LinkItem), ItemIsbn), SearchResultLimit)
    requires d < |results|
    ensures k < |hrefs| && hrefs[k] != "" && Contains(hrefs[k], Site)
    ensures results[d].url == hrefs[k] && results[d].isbn == TailIsbn(hrefs[k])
    ensures results[d].isbn.Some? && 10 <= |results[d].isbn.value| <= 13 && IsDigits(results[d].isbn.value)
  {
    var all := FirstByKey(FilterMap(hrefs, LinkItem), ItemIsbn);
    FirstByKeyFacts(FilterMap(hrefs, LinkItem), ItemIsbn);
    WindowAt(all, SearchResultLimit, d);
    k := KeptSource(hrefs, LinkItem, ItemIsbn, d);
  }

  // `_extract_first_result`: the script that collects product links, then the choice among them

  /** The test of the first loop: a non-empty kennys.ie link. */
  function OnSite(href: string): Option<string>
  {
    if href != "" && Contains(href, Site) then Some(href) else None
  }

  /** `kennys\.ie\/[^\/]+\/[^\/?#]+-\d{10,13}(-\d)?$` matches somewhere at or after `i`. */
  predicate ShapeFrom(href: string, i: nat)
    requires i <= |href|
    decreases |href| - i
  {
    (StartsWith(href[i..], Site + "/") && ShapeAfter(href[i + |Site| + 1..]))
    || (i < |href| && ShapeFrom(href, i + 1))
  }

  /**
   * What follows "kennys.ie/" in a product link: a non-empty segment, a slash, and a last
   * segment without '?' or '#' that ends in an ISBN tail with at least one character before it.
   */
  predicate ShapeAfter(rest: string)
  {
    var parts := Split(rest, '/');
    |parts| == 2 && |parts[0]| > 0 && '?' !in parts[1] && '#' !in parts[1]
    && |parts[1]| > 0 && TailFrom(parts[1], 1).Some?
  }

  /** The test of the fallback loop: a non-empty kennys.ie link shaped like a product link. */
  function ShapedLink(href: string): Option<string>
  {
    if href != "" && Contains(href, Site) && ShapeFrom(href, 0) then Some(href) else None
  }

  /** The key the scripts' `seen` sets hold: the link itself. */
  function Itself(href: string): string { href }

  /** The links of the first loop: the on-site result links, each once, in page order. */
  function ResultHrefs(resultAnchors: seq<string>): seq<string>
  {
    FirstByKey(FilterMap(resultAnchors, OnSite), Itself)
  }

  /** The links of the fallback loop: the product-shaped links, each once, at most fifteen. */
  function FallbackHrefs(allAnchors: seq<string>): seq<string>
  {
    Window(FirstByKey(FilterMap(allAnchors, ShapedLink), Itself), FallbackLinkLimit)
  }

  /** What the link script returns: the result links, or the fallback links when there are none. */
  function ProductHrefs(resultAnchors: seq<string>, allAnchors: seq<string>): seq<string>
  {
    if ResultHrefs(resultAnchors) != [] then ResultHrefs(resultAnchors) else FallbackHrefs(allAnchors)
  }

  /**
   * One step of either loop: a link that passes the loop's test and has not been seen is pushed
   * and recorded as seen.
   */
  method KeepLink(items: seq<string>, hrefs: seq<string>, seen: set<string>, href: string,
                  wanted: string -> Option<string>)
    returns (hrefs': seq<string>, seen': set<string>)
    requires wanted(href).Some? ==> wanted(href).value == href
    requires hrefs == FirstByKey(items, Itself) && seen == KeySet(hrefs, Itself)
    ensures hrefs' == FirstByKey(items + (if wanted(href).Some? then [href] else []), Itself)
    ensures seen' == KeySet(hrefs', Itself)
    ensures hrefs' == hrefs || hrefs' == hrefs + [href]
  {
    hrefs', seen' := hrefs, seen;
    if wanted(href).Some? {
      FirstByKeyStep(items, href, Itself);
      if href !in seen {
        KeySetAppend(hrefs, href, Itself);
        hrefs' := hrefs + [href];
        seen' := seen + {href};
      }
    } else {
      assert items + [] == items;
    }
  }

  /** The first loop of the link script, over the search-result links. */
  method CollectResultHrefs(resultAnchors: seq<string>) returns (hrefs: seq<string>, seen: set<string>)
    ensures hrefs == ResultHrefs(resultAnchors)
    ensures seen == KeySet(hrefs, Itself)
  {
    hrefs, seen := [], {};
    assert KeySet(hrefs, Itself) == {};
    for i := 0 to |resultAnchors|
      invariant hrefs == FirstByKey(FilterMap(resultAnchors[..i], OnSite), Itself)
      invariant seen == KeySet(hrefs, Itself)
    {
      assert resultAnchors[..i + 1] == resultAnchors[..i] + [resultAnchors[i]];
      FilterMapStep(resultAnchors[..i], resultAnchors[i], OnSite);
      hrefs, seen := KeepLink(FilterMap(resultAnchors[..i], OnSite), hrefs, seen, resultAnchors[i], OnSite);
    }
    assert resultAnchors[..|resultAnchors|] == resultAnchors;
  }

  /** The fallback loop of the link script, over every link of the page, stopping at fifteen. */
  method CollectFallbackHrefs(allAnchors: seq<string>, seen0: set<string>) returns (hrefs: seq<string>)
    requires seen0 == {}
    ensures hrefs == FallbackHrefs(allAnchors)
  {
    hrefs := [];
    var seen := seen0;
    assert KeySet(hrefs, Itself) == {};
    var i := 0;
    while i < |allAnchors|
      invariant i <= |allAnchors|
      invariant hrefs == FirstByKey(FilterMap(allAnchors[..i], ShapedLink), Itself)
      invariant seen == KeySet(hrefs, Itself)
      invariant |hrefs| < FallbackLinkLimit
    {
      assert allAnchors[..i + 1] == allAnchors[..i] + [allAnchors[i]];
      FilterMapStep(allAnchors[..i], allAnchors[i], ShapedLink);
      hrefs, seen := KeepLink(FilterMap(allAnchors[..i], ShapedLink), hrefs, seen, allAnchors[i], ShapedLink);
      i := i + 1;
      if |hrefs| >= FallbackLinkLimit {
        CappedPrefix(allAnchors, i, ShapedLink, Itself, |hrefs|);
        return;
      }
    }
    assert allAnchors[..i] == allAnchors;
  }

  /** The link script: the result links, and only when there are none the fallback links. */
  method CollectProductHrefs(resultAnchors: seq<string>, allAnchors: seq<string>) returns (hrefs: seq<string>)
    ensures hrefs == ProductHrefs(resultAnchors, allAnchors)
  {
    var seen;
    hrefs, seen := CollectResultHrefs(resultAnchors);
    if |hrefs| == 0 {
      assert KeySet(hrefs, Itself) == {};
      hrefs := CollectFallbackHrefs(allAnchors, seen);
    }
  }

  /** A first-kept list is empty exactly when its input is. */
  lemma FirstByKeyEmpty<T, K>(xs: seq<T>, key: T -> K)
    ensures FirstByKey(xs, key) == [] <==> xs == []
  {
    FirstByKeyFacts(xs, key);
    if xs != [] {
      assert key(xs[0]) in KeySet(xs, key);
    }
  }

  /** A filtered list is empty exactly when no element passes. */
  lemma FilterMapEmpty<A, B>(xs: seq<A>, f: A -> Option<B>)
    ensures FilterMap(xs, f) == [] <==> forall k :: 0 <= k < |xs| ==> f(xs[k]).None?
  {
    FilterMapFacts(xs, f);
  }

  /**
   * The links the script returns are distinct kennys.ie links; fallback links are product
   * shaped and at most fifteen; and there are none exactly when no result link is on the site
   * and no link of the page is product shaped.
   */
  lemma ProductHrefsFacts(resultAnchors: seq<string>, allAnchors: seq<string>)
    ensures var hs := ProductHrefs(resultAnchors, allAnchors);
      forall a, b :: 0 <= a < b < |hs| ==> hs[a] != hs[b]
    ensures forall h :: h in ProductHrefs(resultAnchors, allAnchors) ==> h != "" && Contains(h, Site)
    ensures ResultHrefs(resultAnchors) == [] ==>
      |ProductHrefs(resultAnchors, allAnchors)| <= FallbackLinkLimit &&
      forall h :: h in ProductHrefs(resultAnchors, allAnchors) ==> ShapeFrom(h, 0)
    ensures ProductHrefs(resultAnchors, allAnchors) == [] <==>
      (forall k :: 0 <= k < |resultAnchors| ==> OnSite(resultAnchors[k]).None?) &&
      (forall k :: 0 <= k < |allAnchors| ==> ShapedLink(allAnchors[k]).None?)
  {
    var fr := FilterMap(resultAnchors, OnSite);
    var fa := FilterMap(allAnchors, ShapedLink);
    var all := FirstByKey(fa, Itself);
    FirstByKeyFacts(fr, Itself);
    FirstByKeyFacts(fa, Itself);
    FilterMapFacts(resultAnchors, OnSite);
    FilterMapFacts(allAnchors, ShapedLink);
    FirstByKeyEmpty(fr, Itself);
    FirstByKeyEmpty(fa, Itself);
    FilterMapEmpty(resultAnchors, OnSite);
    FilterMapEmpty(allAnchors, ShapedLink);
    var hs := ProductHrefs(resultAnchors, allAnchors);
    if ResultHrefs(resultAnchors) != [] {
      forall a, b | 0 <= a < b < |hs| ensures hs[a] != hs[b] {
        assert Itself(hs[a]) != Itself(hs[b]);
      }
      forall h | h in hs ensures h != "" && Contains(h, Site) {
        var d :| 0 <= d < |hs| && hs[d] == h;
        var k := KeptSource(resultAnchors, OnSite, Itself, d);
      }
    } else {
      forall a, b | 0 <= a < b < |hs| ensures hs[a] != hs[b] {
        WindowAt(all, FallbackLinkLimit, a);
        WindowAt(all, FallbackLinkLimit, b);
        assert Itself(all[a]) != Itself(all[b]);
      }
      forall h | h in hs ensures h != "" && Contains(h, Site) && ShapeFrom(h, 0) {
        var d :| 0 <= d < |hs| && hs[d] == h;
        WindowAt(all, FallbackLinkLimit, d);
        var k := KeptSource(allAnchors, ShapedLink, Itself, d);
      }
    }
  }

  /** The choice loop's test: the link's last segment, as a slug title, matches the query. */
  predicate TitleMatches(href: string, query: string)
  {
    var parts := Split(RStrip(href, '/'), '/');
    |parts| >= 2 && TitleMatchesQuery(SlugTitle(parts[|parts| - 1]), query, DefaultThreshold)
  }

  function MatchesQuery(query: string): string -> bool
  {
    href => TitleMatches(href, query)
  }

  /** The choice loop's test for one link. */
  method TryHref(href: string, query: string) returns (matched: bool)
    ensures matched == TitleMatches(href, query)
  {
    matched := false;
    var parts := Split(RStrip(href, '/'), '/');
    if |parts| >= 2 {
      var slug := parts[|parts| - 1];
      slug := StripIsbnTail(slug);
      var urlTitle := Replace(slug, "-", " ");
      matched := TitleMatchesQuery(urlTitle, query, DefaultThreshold);
    }
  }

  /**
   * The link the scraper opens: nothing when there are no links, the first link whose slug title
   * matches the query, and the first link when none does.
   */
  method ChooseProduct(hrefs: seq<string>, query: string) returns (chosen: Option<string>)
    ensures chosen.None? <==> hrefs == []
    ensures FirstWhere(hrefs, MatchesQuery(query), 0).Some? ==>
      chosen == FirstWhere(hrefs, MatchesQuery(query), 0)
    ensures FirstWhere(hrefs, MatchesQuery(query), 0).None? && hrefs != [] ==> chosen == Some(hrefs[0])
  {
    if |hrefs| == 0 {
      return None;
    }
    for i := 0 to |hrefs|
      invariant FirstWhere(hrefs, MatchesQuery(query), 0) == FirstWhere(hrefs, MatchesQuery(query), i)
    {
      var matched := TryHref(hrefs[i], query);
      if matched {
        assert MatchesQuery(query)(hrefs[i]);
        return Some(hrefs[i]);
      }
      assert !MatchesQuery(query)(hrefs[i]);
    }
    chosen := Some(hrefs[0]);
  }

  /** The chosen link is one of the links, and a link whose title matches wins over any other. */
  lemma ChosenLink(hrefs: seq<string>, query: string, chosen: Option<string>)
    requires chosen.None? <==> hrefs == []
    requires FirstWhere(hrefs, MatchesQuery(query), 0).Some? ==>
      chosen == FirstWhere(hrefs, MatchesQuery(query), 0)
    requires FirstWhere(hrefs, MatchesQuery(query), 0).None? && hrefs != [] ==> chosen == Some(hrefs[0])
    ensures chosen.Some? ==> chosen.value in hrefs
    ensures (exists k :: 0 <= k < |hrefs| && TitleMatches(hrefs[k], query)) ==>
      chosen.Some? && TitleMatches(chosen.value, query)
  {
    if exists k :: 0 <= k < |hrefs| && TitleMatches(hrefs[k], query) {
      var k :| 0 <= k < |hrefs| && TitleMatches(hrefs[k], query);
      assert MatchesQuery(query)(hrefs[k]);
    }
  }

  // `_extract_from_product_page`

  /** What the scraper reads from a product page: the first `h1`'s text, the page title and the body text. */
  datatype ProductPage = ProductPage(heading: Option<string>, pageTitle: string, body: string)

  /**
   * The title: the heading when it has visible text, else the page title's text before its first
   * " - " (stripped), else the whole page title; stripped at the end.
   */
  function PageTitle(page: ProductPage): string
  {
    var heading := page.heading.GetOr("");
    var title :=
      if Strip(heading) != "" then heading
      else match FindFrom(page.pageTitle, " - ", 0)
        case Some(i) => Strip(page.pageTitle[..i])
        case None => page.pageTitle;
    Strip(title)
  }

  /** The value of a digit character, and 0 for any other character. */
  function DigitValue(c: char): nat
  {
    if IsDigit(c) then c as int - '0' as int else 0
  }

  /** A run of decimal digits read as a number. */
  function DigitsValue(s: string): nat
    decreases |s|
  {
    if |s| == 0 then 0 else 10 * DigitsValue(s[..|s| - 1]) + DigitValue(s[|s| - 1])
  }

  /** Where a price text's amount starts: after the euro sign and the white space after it. */
  function AmountStart(p: string): (i: nat)
    ensures i <= |p|
  {
    if |p| > 0 then 1 + SpaceRun(p, 1) else 0
  }

  /** The whole-euro digits of a price text. */
  function Whole(p: string): string
  {
    var i := AmountStart(p);
    p[i..i + DigitRun(p, i)]
  }

  /** The two cent digits after the decimal separator, if the text goes on that far. */
  function Cents(p: string): (c: string)
    ensures |c| <= 2
  {
    var j := AmountStart(p) + DigitRun(p, AmountStart(p)) + 1;
    if j + 2 <= |p| then p[j..j + 2] else ""
  }

  /**
   * `float(p.replace("€", "").replace(",", ".").strip())` for a match of `€\s*\d+[.,]\d{2}`:
   * with the sign and the spaces gone and a decimal comma made a point, what is left reads as
   * the whole euros plus the cents over a hundred.
   */
  function Amount(p: string): real
  {
    DigitsValue(Whole(p)) as real + DigitsValue(Cents(p)) as real / 100.0
  }

  /** The filter of the price list: amounts under 100 euros stay. */
  function UnderHundred(p: string): Option<string>
  {
    if Amount(p) < 100.0 then Some(p) else None
  }

  /** The amounts of `€\s*\d+[.,]\d{2}` in the text that are under 100 euros, in order. */
  function ValidPrices(body: string): seq<string>
  {
    FilterMap(FindAll(EuroBefore, body), UnderHundred)
  }

  /** The price picked from the valid amounts: the second, else the only one, else "N/A". */
  function PickedPrice(body: string): string
  {
    var valid := ValidPrices(body);
    if |valid| >= 2 then valid[1] else if |valid| == 1 then valid[0] else NoPrice
  }

  /** The price reported: the picked price stripped, "N/A" if it were empty. */
  function ProductPrice(body: string): string
  {
    var price := PickedPrice(body);
    if price != "" then Strip(price) else NoPrice
  }

  /** The result the scraper builds for a product page reached through `href`. */
  function ProductResult(href: string, page: ProductPage): BookResult
  {
    BookResult(Name, PageTitle(page), ProductPrice(page.body), Absolute(BaseUrl, href), Search(IsbnLabel, page.body))
  }

  /** The title steps of `_extract_from_product_page`, before the final strip. */
  method ReadTitle(page: ProductPage) returns (title: string)
    ensures Strip(title) == PageTitle(page)
  {
    title := page.heading.GetOr("");
    if Strip(title) == "" {
      var sep := FindFrom(page.pageTitle, " - ", 0);
      if sep.Some? {
        title := Strip(page.pageTitle[..sep.value]);
      } else {
        title := page.pageTitle;
      }
    }
  }

  /** The price steps of `_extract_from_product_page`, before the final strip. */
  method ReadPrice(allText: string) returns (price: string)
    ensures price == PickedPrice(allText)
  {
    price := NoPrice;
    var prices := FindAll(EuroBefore, allText);
    if |prices| > 0 {
      var validPrices := FilterMap(prices, UnderHundred);
      if |validPrices| > 0 {
        if |validPrices| >= 2 {
          price := validPrices[1];
        } else {
          price := validPrices[0];
        }
      }
    } else {
      assert FilterMap(prices, UnderHundred) == [];
    }
  }

  /** `_extract_from_product_page`: opens the page the link leads to and reads the result off it. */
  method ExtractFromProductPage(href: string, pages: string -> ProductPage) returns (result: BookResult)
    ensures result == ProductResult(href, pages(Absolute(BaseUrl, href)))
  {
    var url := if StartsWith(href, "http") then href else BaseUrl + href;
    var page := pages(url);
    var title := ReadTitle(page);
    var allText := page.body;
    var price := ReadPrice(allText);
    var isbn := Search(IsbnLabel, allText);
    result := BookResult(Name, Strip(title), if price != "" then Strip(price) else NoPrice, url, isbn);
  }

  /** The cents never reach a euro. */
  lemma CentsBelowOne(p: string)
    ensures DigitsValue(Cents(p)) <= 99
  {
    var c := Cents(p);
    if |c| == 2 {
      assert c[..1][..0] == [];
      assert DigitsValue(c[..1]) == DigitValue(c[0]);
    } else if |c| == 1 {
      assert c[..0] == [];
    }
  }

  /** A price is kept exactly when its whole euros are under 100. */
  lemma UnderHundredWhole(p: string)
    ensures UnderHundred(p).Some? <==> DigitsValue(Whole(p)) < 100
  {
    CentsBelowOne(p);
  }

  /**
   * The price is "N/A" or one of the page's euro amounts under 100 euros, exactly as it appears;
   * with two or more such amounts it is the second.
   */
  lemma ProductPriceFacts(body: string)
    ensures var price := ProductPrice(body);
      price == NoPrice || (price in FindAll(EuroBefore, body) && DigitsValue(Whole(price)) < 100)
    ensures |ValidPrices(body)| >= 2 ==> ProductPrice(body) == ValidPrices(body)[1]
    ensures ValidPrices(body) == [] ==> ProductPrice(body) == NoPrice
  {
    ProductPriceIsPicked(body);
    PickedPriceSource(body);
    if PickedPrice(body) != NoPrice {
      UnderHundredWhole(PickedPrice(body));
    }
  }

  /** The final strip changes nothing: a match has no white space at its ends. */
  lemma ProductPriceIsPicked(body: string)
    ensures ProductPrice(body) == PickedPrice(body)
  {
    var p := PickedPrice(body);
    PickedPriceSource(body);
    if p != NoPrice {
      FoundUnpadded(EuroBefore, body, p);
    }
    StripUntouched(p);
  }

  lemma FoundUnpadded(pattern: Pattern, s: string, m: string)
    requires m in FindAll(pattern, s)
    ensures |m| > 0 && !IsSpace(m[0]) && !IsSpace(m[|m| - 1])
  {
    FindAllFromUnpadded(pattern, s, 0);
  }

  /** The picked price is "N/A" or one of the text's amounts that the filter keeps. */
  lemma PickedPriceSource(body: string)
    ensures var p := PickedPrice(body);
      p == NoPrice || (p in FindAll(EuroBefore, body) && UnderHundred(p) == Some(p))
  {
    var valid := ValidPrices(body);
    if |valid| > 0 {
      var d := if |valid| >= 2 then 1 else 0;
      var k := FilterMapSource(FindAll(EuroBefore, body), UnderHundred, d);
    }
  }

  /** `n` is where the first " - " of `s` starts, or the end of `s` when it has none. */
  predicate FirstDashCut(s: string, n: nat)
  {
    n <= |s| && (n == |s| || StartsWith(s[n..], " - ")) && forall j :: 0 <= j < n ==> !StartsWith(s[j..], " - ")
  }

  /**
   * The title has no white space at its ends; it is the heading's text when the heading has
   * any, and otherwise the stripped part of the page title before its first " - ", or the whole
   * page title when it has none.
   */
  lemma PageTitleFacts(page: ProductPage)
    ensures var t := PageTitle(page); |t| == 0 || (!IsSpace(t[0]) && !IsSpace(t[|t| - 1]))
    ensures Strip(page.heading.GetOr("")) != "" ==> PageTitle(page) == Strip(page.heading.value)
    ensures Strip(page.heading.GetOr("")) == "" ==>
      exists n: nat :: FirstDashCut(page.pageTitle, n) && PageTitle(page) == Strip(page.pageTitle[..n])
  {
    PageTitleStripped(page);
    if Strip(page.heading.GetOr("")) == "" {
      PageTitleFallback(page);
    }
  }

  /** The title has no white space at its ends, and is the heading's text when that has any. */
  lemma PageTitleStripped(page: ProductPage)
    ensures var t := PageTitle(page); |t| == 0 || (!IsSpace(t[0]) && !IsSpace(t[|t| - 1]))
    ensures Strip(page.heading.GetOr("")) != "" ==> PageTitle(page) == Strip(page.heading.value)
  {
    var heading := page.heading.GetOr("");
    if Strip(heading) != "" {
      StripEdges(heading);
    } else {
      match FindFrom(page.pageTitle, " - ", 0)
      case Some(i) =>
        var cut := Strip(page.pageTitle[..i]);
        assert PageTitle(page) == Strip(cut);
        StripEdges(cut);
      case None =>
        StripEdges(page.pageTitle);
    }
  }

  /** Where Python's `s.find(" - ")` cuts `s`, or its end when the separator is missing. */
  lemma DashCut(s: string) returns (n: nat)
    ensures FirstDashCut(s, n)
    ensures FindFrom(s, " - ", 0) == (if n < |s| then Some(n) else None)
  {
    match FindFrom(s, " - ", 0)
    case Some(i) =>
      n := i;
    case None =>
      n := |s|;
  }

  /** With a blank heading, the title is the page title up to its first " - ", stripped. */
  lemma PageTitleFallback(page: ProductPage)
    requires Strip(page.heading.GetOr("")) == ""
    ensures exists n: nat :: FirstDashCut(page.pageTitle, n) && PageTitle(page) == Strip(page.pageTitle[..n])
  {
    var t := page.pageTitle;
    var n := DashCut(t);
    if n < |t| {
      StripIdempotent(t[..n]);
    } else {
      assert t[..n] == t;
    }
    assert PageTitle(page) == Strip(t[..n]);
  }

  /** The ISBN a product page gives is ten to thirteen digits, when there is one. */
  lemma ProductIsbnFacts(href: string, page: ProductPage)
    ensures var isbn := ProductResult(href, page).isbn;
      isbn.Some? ==> 10 <= |isbn.value| <= 13 && IsDigits(isbn.value)
  {
    if Search(IsbnLabel, page.body).Some? {
      SearchIsbnLabel(page.body);
    }
  }

  /**
   * `search` (and `search_isbn`, which searches for the ISBN as a query): nothing when the link
   * script finds no links, else the product page of the first link whose title matches, or of
   * the first link when none does.
   */
  method SearchQuery(resultAnchors: seq<string>, allAnchors: seq<string>, query: string,
                     pages: string -> ProductPage)
    returns (result: Option<BookResult>)
    ensures var hs := ProductHrefs(resultAnchors, allAnchors);
      result.None? <==> hs == []
    ensures var hs := ProductHrefs(resultAnchors, allAnchors);
      hs != [] ==>
        var href := FirstWhere(hs, MatchesQuery(query), 0).GetOr(hs[0]);
        result == Some(ProductResult(href, pages(Absolute(BaseUrl, href))))
  {
    var hrefs := CollectProductHrefs(resultAnchors, allAnchors);
    var chosen := ChooseProduct(hrefs, query);
    if chosen.Some? {
      var book := ExtractFromProductPage(chosen.value, pages);
      result := Some(book);
    } else {
      result := None;
    }
  }
}
