/**
 * The blackwells.co.uk scraper (src/bookscout/scrapers/blackwells.py) without its browser: the
 * links, texts and lines it reads from a page are inputs, and what it picks from them is
 * computed here.
 */
module Blackwells {
  import opened Wrappers
  import opened Text
  import opened Patterns
  import opened Models
  import opened Dedup
  import opened Matching
  import opened Scraping

  const Name: string := "Blackwells"
  const BaseUrl: string := "https://blackwells.co.uk"
  /** How many product links `get_search_results` looks at. */
  const SearchLinkLimit: nat := 15
  /** How many product links `_extract_first_result` tries. */
  const FirstResultLimit: nat := 10

  /** A URL slug as a title: "-by-" becomes a space, then every other "-" does. */
  function SlugTitle(slug: string): string
  {
    Replace(Replace(slug, "-by-", " "), "-", " ")
  }

  /** No hyphen survives in a slug title. */
  lemma SlugTitleHasNoHyphen(slug: string)
    ensures '-' !in SlugTitle(slug)
  {
    var once := Replace(slug, "-by-", " ");
    ReplaceChar(once, '-', ' ');
  }

  /** `href.rstrip("/").split("/")`: the path segments `get_search_results` reads from a link. */
  function LinkParts(href: string): (parts: seq<string>)
    ensures |parts| >= 1
  {
    Split(RStrip(href, '/'), '/')
  }

  /**
   * The search item a link with segments `parts` gives: its last segment when that looks like
   * an ISBN, the absolute URL, and the slug before the last segment as a title.
   */
  function PartsItem(href: string, parts: seq<string>): Option<SearchResultItem>
    requires |parts| >= 1
  {
    var potentialIsbn := parts[|parts| - 1];
    if LooksLikeIsbn(potentialIsbn) then
      var title := if |parts| >= 2 then Some(SlugTitle(parts[|parts| - 2])) else None;
      Some(SearchResultItem(Some(potentialIsbn), Absolute(BaseUrl, href), title))
    else None
  }

  /** The search item a product link gives; an empty link gives none. */
  function LinkItem(href: string): Option<SearchResultItem>
  {
    if href != "" then PartsItem(href, LinkParts(href)) else None
  }

  lemma LinkItemOf(href: string)
    requires href != "" && LooksLikeIsbn(LastSegment(href))
    ensures LinkItem(href).Some? && ItemIsbn(LinkItem(href).value) == Some(LastSegment(href))
  {
    assert LastSegment(href) == Last(LinkParts(href));
  }

  /**
   * `get_search_results`: the items of the first 15 product links, keeping the first item for
   * each ISBN. A link without an `href` is given as "".
   */
  method GetSearchResults(hrefs: seq<string>) returns (results: seq<SearchResultItem>)
    ensures results == FirstByKey(FilterMap(Window(hrefs, SearchLinkLimit), LinkItem), ItemIsbn)
  {
    var links := Window(hrefs, SearchLinkLimit);
    results := [];
    var seenIsbns: set<string> := {};
    assert links[..0] == [];
    assert KeySet(results, ItemIsbn) == {};
    for i := 0 to |links|
      invariant results == FirstByKey(FilterMap(links[..i], LinkItem), ItemIsbn)
      invariant forall k :: k in seenIsbns <==> Some(k) in KeySet(results, ItemIsbn)
    {
      results, seenIsbns := VisitLink(links, i, results, seenIsbns);
    }
    assert links[..|links|] == links;
  }

  /** One pass of the `get_search_results` loop, for the link after `done`. */
  method VisitLink(links: seq<string>, i: nat, results: seq<SearchResultItem>, seenIsbns: set<string>)
    returns (results': seq<SearchResultItem>, seenIsbns': set<string>)
    requires i < |links|
    requires results == FirstByKey(FilterMap(links[..i], LinkItem), ItemIsbn)
    requires forall k :: k in seenIsbns <==> Some(k) in KeySet(results, ItemIsbn)
    ensures results' == FirstByKey(FilterMap(links[..i + 1], LinkItem), ItemIsbn)
    ensures forall k :: k in seenIsbns' <==> Some(k) in KeySet(results', ItemIsbn)
  {
    results', seenIsbns' := results, seenIsbns;
    var done, href := links[..i], links[i];
    assert links[..i + 1] == done + [href];
    FilterMapStep(done, href, LinkItem);
    var item := ReadLink(href);
    if item.Some? {
      results', seenIsbns' := KeepIfNew(FilterMap(done, LinkItem), results, seenIsbns, item.value);
    } else {
      assert FilterMap(done, LinkItem) + [] == FilterMap(done, LinkItem);
    }
  }

  /** The head of the loop body: skip an empty link, read the ISBN, URL and title of the others. */
  method ReadLink(href: string) returns (item: Option<SearchResultItem>)
    ensures item == LinkItem(href)
    ensures item.Some? ==> item.value.isbn.Some?
  {
    item := None;
    if href != "" {
      var parts := Split(RStrip(href, '/'), '/');
      assert parts == LinkParts(href);
      var potentialIsbn := parts[|parts| - 1];
      if |potentialIsbn| >= 10 && IsDigits(Replace(Replace(potentialIsbn, "X", ""), "x", "")) {
        var url := if StartsWith(href, "http") then href else BaseUrl + href;
        var title := if |parts| >= 2 then Some(SlugTitle(parts[|parts| - 2])) else None;
        item := Some(SearchResultItem(Some(potentialIsbn), url, title));
      }
    }
  }

  /** What `get_search_results` gives: at most 15 items, with pairwise distinct ISBNs. */
  lemma SearchResultsDistinct(hrefs: seq<string>, results: seq<SearchResultItem>)
    requires results == FirstByKey(FilterMap(Window(hrefs, SearchLinkLimit), LinkItem), ItemIsbn)
    ensures |results| <= SearchLinkLimit
    ensures forall a, b :: 0 <= a < b < |results| ==> results[a].isbn != results[b].isbn
  {
    var links := Window(hrefs, SearchLinkLimit);
    FilterMapFacts(links, LinkItem);
    FirstByKeyFacts(FilterMap(links, LinkItem), ItemIsbn);
    forall a, b | 0 <= a < b < |results| ensures results[a].isbn != results[b].isbn {
      assert ItemIsbn(results[a]) != ItemIsbn(results[b]);
    }
  }

  /**
   * Each result comes from one of the first 15 links: its ISBN is the link's last segment,
   * which looks like an ISBN, and its URL is the link made absolute.
   */
  lemma SearchResultSource(hrefs: seq<string>, results: seq<SearchResultItem>, d: nat) returns (k: nat)
    requires results == FirstByKey(FilterMap(Window(hrefs, SearchLinkLimit), LinkItem), ItemIsbn)
    requires d < |results|
    ensures k < |hrefs| && k < SearchLinkLimit && hrefs[k] != ""
    ensures results[d].isbn == Some(LastSegment(hrefs[k])) && LooksLikeIsbn(LastSegment(hrefs[k]))
    ensures results[d].url == Absolute(BaseUrl, hrefs[k])
  {
    var links := Window(hrefs, SearchLinkLimit);
    k := KeptSource(links, LinkItem, ItemIsbn, d);
    assert links[k] == hrefs[k];
  }

  /** Every link among the first 15 whose last segment looks like an ISBN has that ISBN among the results. */
  lemma SearchResultsComplete(hrefs: seq<string>, results: seq<SearchResultItem>, k: nat) returns (d: nat)
    requires results == FirstByKey(FilterMap(Window(hrefs, SearchLinkLimit), LinkItem), ItemIsbn)
    requires k < |hrefs| && k < SearchLinkLimit && hrefs[k] != "" && LooksLikeIsbn(LastSegment(hrefs[k]))
    ensures d < |results| && results[d].isbn == Some(LastSegment(hrefs[k]))
  {
    var links := Window(hrefs, SearchLinkLimit);
    var href := hrefs[k];
    WindowAt(hrefs, SearchLinkLimit, k);
    LinkItemOf(href);
    d := KeptWithKey(links, LinkItem, ItemIsbn, k);
  }

  /**
   * The title `_extract_first_result` reads from a link: the slug before the last segment
   * when that is all digits, else the last segment itself, with its hyphens made spaces.
   */
  function UrlTitle(href: string): Option<string>
  {
    var parts := Split(href, '/');
    if |parts| >= 2 then
      Some(SlugTitle(if IsDigits(parts[|parts| - 1]) then parts[|parts| - 2] else parts[|parts| - 1]))
    else None
  }

  /** A link `_extract_first_result` accepts for the query. */
  predicate TitleMatches(href: string, query: string)
  {
    href != "" && UrlTitle(href).Some? && TitleMatchesQuery(UrlTitle(href).value, query, DefaultThreshold)
  }

  /** The test `_extract_first_result` applies to each link, for one query. */
  function MatchesQuery(query: string): string -> bool
  {
    href => TitleMatches(href, query)
  }

  /** The first link whose slug title matches the query. */
  function FirstMatch(links: seq<string>, query: string): Option<string>
  {
    FirstWhere(links, MatchesQuery(query), 0)
  }

  /**
   * Which product page `_extract_first_result` opens: the first of the first ten links whose
   * slug title matches the query; failing that, one of the non-empty links it saw (Python takes
   * `list(seen_hrefs)[0]`, in the set's hash order); and none when every link is empty.
   */
  method ChooseFirstResult(hrefs: seq<string>, query: string) returns (chosen: Option<string>)
    ensures FirstMatch(Window(hrefs, FirstResultLimit), query).Some? ==>
      chosen == FirstMatch(Window(hrefs, FirstResultLimit), query)
    ensures chosen.None? <==> forall j :: 0 <= j < |Window(hrefs, FirstResultLimit)| ==> Window(hrefs, FirstResultLimit)[j] == ""
    ensures chosen.Some? ==> chosen.value in Window(hrefs, FirstResultLimit) && chosen.value != ""
  {
    if |hrefs| == 0 {
      return None;
    }
    var links := Window(hrefs, FirstResultLimit);
    var seenHrefs: set<string> := {};
    for i := 0 to |links|
      invariant FirstMatch(links, query) == FirstWhere(links, MatchesQuery(query), i)
      invariant forall h :: h in seenHrefs ==> !MatchesQuery(query)(h)
      invariant forall h :: h in seenHrefs <==> exists j :: 0 <= j < i && links[j] == h && h != ""
      invariant seenHrefs == {} <==> forall j :: 0 <= j < i ==> links[j] == ""
    {
      var matched;
      seenHrefs, matched := TryLink(links[i], query, seenHrefs);
      if matched {
        return Some(links[i]);
      }
    }
    if seenHrefs != {} {
      var first :| first in seenHrefs;
      return Some(first);
    }
    return None;
  }

  /**
   * One pass of the `_extract_first_result` loop: an empty or already seen link is skipped,
   * any other is recorded, and it is taken when its slug title matches the query.
   */
  method TryLink(href: string, query: string, seenHrefs: set<string>) returns (seenHrefs': set<string>, matched: bool)
    ensures seenHrefs' == if href == "" then seenHrefs else seenHrefs + {href}
    ensures matched <==> href !in seenHrefs && TitleMatches(href, query)
  {
    seenHrefs', matched := seenHrefs, false;
    if href != "" && href !in seenHrefs {
      seenHrefs' := seenHrefs + {href};
      var parts := Split(href, '/');
      if |parts| >= 2 {
        var slug := if IsDigits(parts[|parts| - 1]) then parts[|parts| - 2] else parts[|parts| - 1];
        var urlTitle := SlugTitle(slug);
        matched := TitleMatchesQuery(urlTitle, query, DefaultThreshold);
      }
    }
  }

  /** A price text `_extract_from_product_page` skips: a discount such as "Save 3.00€". */
  predicate IsSaving(text: string)
  {
    StartsWith(Lower(Strip(text)), "save")
  }

  /**
   * The price the three price selectors give, tried in order: the first `\d+[.,]\d{2}€` in the
   * text of the first present element that is not a discount and has one.
   */
  function SelectorPrice(texts: seq<Option<string>>): Option<string>
  {
    if |texts| == 0 then None
    else if texts[0].Some? && !IsSaving(texts[0].value) && Search(EuroAfter, texts[0].value).Some? then
      Search(EuroAfter, texts[0].value)
    else SelectorPrice(texts[1..])
  }

  /** The selector loop of `_extract_from_product_page`; an absent element is `None`. */
  method FindSelectorPrice(texts: seq<Option<string>>) returns (price: string)
    ensures price == SelectorPrice(texts).GetOr(NoPrice)
  {
    price := NoPrice;
    for i := 0 to |texts|
      invariant SelectorPrice(texts) == SelectorPrice(texts[i..])
    {
      assert texts[i..][1..] == texts[i + 1..];
      if texts[i].Some? {
        var priceText := texts[i].value;
        if StartsWith(Lower(Strip(priceText)), "save") {
          continue;
        }
        var priceMatch := Search(EuroAfter, priceText);
        if priceMatch.Some? {
          price := priceMatch.value;
          return;
        }
      }
    }
  }

  /** `re.match(r"^(\d+[.,]\d{2}€)$", t)`: the whole line is one price. */
  predicate IsPriceLine(t: string)
  {
    MatchAt(EuroAfter, t, 0) == Some(|t|)
  }

  /** The nearest price line among lines `i - j` .. `i - 4` above line `i`, stripped. */
  function PriceAbove(lines: seq<string>, i: nat, j: nat): Option<string>
    requires i < |lines| && 1 <= j <= 5
    decreases 5 - j
  {
    if j == 5 then None
    else if i >= j && IsPriceLine(Strip(lines[i - j])) then Some(Strip(lines[i - j]))
    else PriceAbove(lines, i, j + 1)
  }

  /** The price above the first "Add to basket" line, from line `i` on, that has one. */
  function LookBackFrom(lines: seq<string>, i: nat): Option<string>
    requires i <= |lines|
    decreases |lines| - i
  {
    if i == |lines| then None
    else if Contains(lines[i], "Add to basket") && PriceAbove(lines, i, 1).Some? then PriceAbove(lines, i, 1)
    else LookBackFrom(lines, i + 1)
  }

  /** The inner loop of the fallback: the four lines above line `i`, nearest first. */
  method FindPriceAbove(lines: seq<string>, i: nat) returns (price: string)
    requires i < |lines|
    ensures price == PriceAbove(lines, i, 1).GetOr(NoPrice)
  {
    price := NoPrice;
    for j := 1 to 5
      invariant PriceAbove(lines, i, 1) == PriceAbove(lines, i, j)
    {
      if i - j >= 0 {
        var prevLine := Strip(lines[i - j]);
        if MatchAt(EuroAfter, prevLine, 0) == Some(|prevLine|) {
          price := prevLine;
          return;
        }
      }
    }
  }

  /** The fallback of `_extract_from_product_page`: the page body's lines searched for a price above "Add to basket". */
  method FindLookBackPrice(body: string) returns (price: string)
    ensures price == LookBackFrom(Split(body, '\n'), 0).GetOr(NoPrice)
  {
    var lines := Split(body, '\n');
    price := NoPrice;
    for i := 0 to |lines|
      invariant LookBackFrom(lines, 0) == LookBackFrom(lines, i)
      invariant price == NoPrice
    {
      if Contains(lines[i], "Add to basket") {
        price := FindPriceAbove(lines, i);
        if price != NoPrice {
          return;
        }
        PriceAboveNotNoPrice(lines, i, 1);
      }
    }
  }

  /** A price line is never the "N/A" placeholder, so finding one ends the search. */
  lemma {:induction false} PriceAboveNotNoPrice(lines: seq<string>, i: nat, j: nat)
    requires i < |lines| && 1 <= j <= 5
    ensures PriceAbove(lines, i, j).Some? ==> PriceAbove(lines, i, j).value != NoPrice
    decreases 5 - j
  {
    if j < 5 {
      if i >= j && IsPriceLine(Strip(lines[i - j])) {
        var t := Strip(lines[i - j]);
        assert IsDigit(t[0]);
        assert NoPrice[0] == 'N';
      } else {
        PriceAboveNotNoPrice(lines, i, j + 1);
      }
    }
  }

  /** Both price sources give a whole `\d+[.,]\d{2}€` amount, taken from a text that is not a discount. */
  lemma SelectorPriceFacts(texts: seq<Option<string>>)
    ensures SelectorPrice(texts).Some? ==> IsPriceLine(SelectorPrice(texts).value)
    ensures SelectorPrice(texts).Some? ==>
      exists i :: 0 <= i < |texts| && texts[i].Some? && !IsSaving(texts[i].value) &&
        Search(EuroAfter, texts[i].value) == SelectorPrice(texts)
    ensures SelectorPrice(texts).None? ==>
      forall i :: 0 <= i < |texts| && texts[i].Some? && !IsSaving(texts[i].value) ==>
        Search(EuroAfter, texts[i].value).None?
  {
    SelectorPriceLine(texts);
    SelectorPriceSource(texts);
    SelectorPriceNone(texts);
  }

  lemma {:induction false} SelectorPriceLine(texts: seq<Option<string>>)
    ensures SelectorPrice(texts).Some? ==> IsPriceLine(SelectorPrice(texts).value)
  {
    if |texts| > 0 {
      if texts[0].Some? && !IsSaving(texts[0].value) && Search(EuroAfter, texts[0].value).Some? {
        SearchEuroAfter(texts[0].value);
      } else {
        SelectorPriceLine(texts[1..]);
      }
    }
  }

  lemma {:induction false} SelectorPriceSource(texts: seq<Option<string>>)
    ensures SelectorPrice(texts).Some? ==>
      exists i :: 0 <= i < |texts| && texts[i].Some? && !IsSaving(texts[i].value) &&
        Search(EuroAfter, texts[i].value) == SelectorPrice(texts)
  {
    if |texts| > 0 {
      if texts[0].Some? && !IsSaving(texts[0].value) && Search(EuroAfter, texts[0].value).Some? {
      } else if SelectorPrice(texts[1..]).Some? {
        SelectorPriceSource(texts[1..]);
        var i :| 0 <= i < |texts[1..]| && texts[1..][i].Some? && !IsSaving(texts[1..][i].value) &&
          Search(EuroAfter, texts[1..][i].value) == SelectorPrice(texts[1..]);
        assert texts[i + 1] == texts[1..][i];
      }
    }
  }

  lemma {:induction false} SelectorPriceNone(texts: seq<Option<string>>)
    ensures SelectorPrice(texts).None? ==>
      forall i :: 0 <= i < |texts| && texts[i].Some? && !IsSaving(texts[i].value) ==>
        Search(EuroAfter, texts[i].value).None?
  {
    if |texts| > 0 && SelectorPrice(texts).None? {
      SelectorPriceNone(texts[1..]);
      assert forall i :: 1 <= i < |texts| ==> texts[i] == texts[1..][i - 1];
    }
  }

  /** The fallback price is a whole price line, four lines or fewer above an "Add to basket" line. */
  lemma {:induction false} LookBackFacts(lines: seq<string>, i: nat)
    requires i <= |lines|
    ensures LookBackFrom(lines, i).Some? ==> IsPriceLine(LookBackFrom(lines, i).value)
    ensures LookBackFrom(lines, i).Some? ==>
      exists a, b :: i <= a < |lines| && 0 <= b < a <= b + 4 && Contains(lines[a], "Add to basket") &&
        LookBackFrom(lines, i).value == Strip(lines[b])
    decreases |lines| - i
  {
    if i < |lines| {
      if Contains(lines[i], "Add to basket") && PriceAbove(lines, i, 1).Some? {
        PriceAboveFacts(lines, i, 1);
        var b :| 0 <= b < i <= b + 4 && PriceAbove(lines, i, 1).value == Strip(lines[b]);
        assert LookBackFrom(lines, i).value == Strip(lines[b]);
      } else {
        LookBackFacts(lines, i + 1);
      }
    }
  }

  lemma PriceAboveFacts(lines: seq<string>, i: nat, j: nat)
    requires i < |lines| && 1 <= j <= 5
    ensures PriceAbove(lines, i, j).Some? ==>
      IsPriceLine(PriceAbove(lines, i, j).value) &&
      exists b :: 0 <= b < i && j <= i - b <= 4 && PriceAbove(lines, i, j).value == Strip(lines[b])
  {
    PriceAboveLine(lines, i, j);
    PriceAboveSource(lines, i, j);
  }

  lemma {:induction false} PriceAboveLine(lines: seq<string>, i: nat, j: nat)
    requires i < |lines| && 1 <= j <= 5
    ensures PriceAbove(lines, i, j).Some? ==> IsPriceLine(PriceAbove(lines, i, j).value)
    decreases 5 - j
  {
    if j < 5 && !(i >= j && IsPriceLine(Strip(lines[i - j]))) {
      PriceAboveLine(lines, i, j + 1);
    }
  }

  lemma {:induction false} PriceAboveSource(lines: seq<string>, i: nat, j: nat)
    requires i < |lines| && 1 <= j <= 5
    ensures PriceAbove(lines, i, j).Some? ==>
      exists b :: 0 <= b < i && j <= i - b <= 4 && PriceAbove(lines, i, j).value == Strip(lines[b])
    decreases 5 - j
  {
    if j < 5 {
      if i >= j && IsPriceLine(Strip(lines[i - j])) {
        var b := i - j;
        assert PriceAbove(lines, i, j).value == Strip(lines[b]);
      } else {
        PriceAboveSource(lines, i, j + 1);
      }
    }
  }

  /** What a product page shows: its `h1` heading, the texts of the three price selectors, and the body text. */
  datatype ProductPage = ProductPage(heading: Option<string>, priceTexts: seq<Option<string>>, body: string)

  /** The price `_extract_from_product_page` reports: the selectors first, then the look-back, else "N/A". */
  function ProductPrice(page: ProductPage): string
  {
    match SelectorPrice(page.priceTexts)
    case Some(price) => price
    case None => LookBackFrom(Split(page.body, '\n'), 0).GetOr(NoPrice)
  }

  /** `href.split("/")[-1] if "/" in href else None`: the ISBN a product page reports. */
  function ProductIsbn(href: string): (isbn: Option<string>)
    ensures isbn.Some? <==> '/' in href
    ensures isbn.Some? ==> '/' !in isbn.value && EndsWith(href, isbn.value)
  {
    SplitLast(href, '/');
    if '/' in href then Some(Last(Split(href, '/'))) else None
  }

  /** The result `_extract_from_product_page` builds for a link, from the page its URL shows. */
  function ProductResult(href: string, page: ProductPage): BookResult
  {
    BookResult(Name, Strip(page.heading.GetOr("Unknown")), ProductPrice(page), Absolute(BaseUrl, href), ProductIsbn(href))
  }

  /**
   * `_extract_from_product_page`: open the link's absolute URL (`pages` gives what each URL
   * shows) and read the title, price and ISBN.
   */
  method ExtractFromProductPage(href: string, pages: string -> ProductPage) returns (result: BookResult)
    ensures result == ProductResult(href, pages(Absolute(BaseUrl, href)))
  {
    var url := if StartsWith(href, "http") then href else BaseUrl + href;
    var page := pages(url);
    var title := if page.heading.Some? then page.heading.value else "Unknown";
    var price := FindSelectorPrice(page.priceTexts);
    SelectorPriceFacts(page.priceTexts);
    if price == NoPrice {
      price := FindLookBackPrice(page.body);
    }
    var isbn := if '/' in href then Some(Last(Split(href, '/'))) else None;
    result := BookResult(Name, Strip(title), price, url, isbn);
  }

  /**
   * What a product page result says: the store's name, a URL ending in the link, a title with
   * no surrounding whitespace, a price that is "N/A" or a whole `\d+[.,]\d{2}€` amount, and an
   * ISBN exactly when the link has a "/", with no "/" in it and ending the link.
   */
  lemma ProductResultFacts(href: string, page: ProductPage)
    ensures ProductResult(href, page).store == Name
    ensures EndsWith(ProductResult(href, page).url, href)
    ensures var t := ProductResult(href, page).title; |t| == 0 || (!IsSpace(t[0]) && !IsSpace(t[|t| - 1]))
    ensures ProductResult(href, page).price == NoPrice || IsPriceLine(ProductResult(href, page).price)
    ensures ProductResult(href, page).isbn.Some? <==> '/' in href
  {
    SelectorPriceFacts(page.priceTexts);
    LookBackFacts(Split(page.body, '\n'), 0);
    var heading := page.heading.GetOr("Unknown");
    var e := TrimEnd(heading);
    var t := TrimStart(e);
    if |t| > 0 {
      assert t[|t| - 1] == e[|e| - 1];
    }
  }

  /** "N/A" is not a price line, so a found price is never mistaken for no price. */
  lemma NoPriceIsNoPriceLine()
    ensures !IsPriceLine(NoPrice)
  {
    assert !IsDigit(NoPrice[0]);
  }

  /**
   * `search` (and `search_isbn`, which searches for the ISBN): the product page of the first
   * of the first ten links whose slug title matches the query, else of some non-empty link
   * among them; nothing when all of them are empty.
   */
  method SearchQuery(hrefs: seq<string>, query: string, pages: string -> ProductPage) returns (result: Option<BookResult>)
    ensures FirstMatch(Window(hrefs, FirstResultLimit), query).Some? ==>
      var href := FirstMatch(Window(hrefs, FirstResultLimit), query).value;
      result == Some(ProductResult(href, pages(Absolute(BaseUrl, href))))
    ensures result.None? <==>
      forall j :: 0 <= j < |Window(hrefs, FirstResultLimit)| ==> Window(hrefs, FirstResultLimit)[j] == ""
    ensures result.Some? ==>
      exists href :: href in Window(hrefs, FirstResultLimit) && href != "" &&
        result.value == ProductResult(href, pages(Absolute(BaseUrl, href)))
  {
    var chosen := ChooseFirstResult(hrefs, query);
    if chosen.Some? {
      var book := ExtractFromProductPage(chosen.value, pages);
      result := Some(book);
    } else {
      result := None;
    }
  }
}
