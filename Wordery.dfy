/**
 * The wordery.com scraper (src/bookscout/scrapers/wordery.py) without its browser: the resolved
 * link targets of the search page, and the heading and text of a product page, are inputs.
 */
module Wordery {
  import opened Wrappers
  import opened Text
  import opened Patterns
  import opened Models
  import opened Dedup
  import opened Scraping

  const Name: string := "Wordery"
  const BaseUrl: string := "https://wordery.com"

  /** The characters JavaScript's `.` does not match. */
  predicate LineTerminator(c: char)
  {
    c == '\n' || c == '\r' || c == '\U{2028}' || c == '\U{2029}'
  }

  /** `#.*$` matches at `i`: a '#' with no line terminator after it. */
  predicate FragmentAt(s: string, i: nat)
    requires i < |s|
  {
    s[i] == '#' && forall k :: i < k < |s| ==> !LineTerminator(s[k])
  }

  /** The leftmost position at or after `i` where `#.*$` matches. */
  function FragmentFrom(s: string, i: nat): (r: Option<nat>)
    requires i <= |s|
    ensures r.Some? ==> i <= r.value < |s| && FragmentAt(s, r.value)
    ensures forall j :: i <= j < |s| && (r.None? || j < r.value) ==> !FragmentAt(s, j)
    decreases |s| - i
  {
    if i == |s| then None
    else if FragmentAt(s, i) then Some(i)
    else FragmentFrom(s, i + 1)
  }

  /** `href.replace(/#.*$/, '')`: the link without its fragment. */
  function NoFragment(href: string): string
  {
    match FragmentFrom(href, 0)
    case Some(i) => href[..i]
    case None => href
  }

  /**
   * On a link without line breaks, as resolved links are, the fragment is cut at the first '#':
   * what is left is a prefix of the link with no '#' in it, followed in the link by a '#' or by
   * nothing.
   */
  lemma NoFragmentCutsAtHash(href: string)
    requires forall k :: 0 <= k < |href| ==> !LineTerminator(href[k])
    ensures var r := NoFragment(href);
      StartsWith(href, r) && '#' !in r && (r == href || href[|r|] == '#')
  {
    var r := NoFragment(href);
    match FragmentFrom(href, 0)
    case Some(i) =>
      forall k | 0 <= k < i ensures r[k] != '#' {
        assert !FragmentAt(href, k);
      }
    case None =>
      forall k | 0 <= k < |href| ensures href[k] != '#' {
        assert !FragmentAt(href, k);
      }
  }

  /** A last segment of ten or more `[0-9Xx]` characters: what the length test and `/^[0-9Xx]+$/` accept. */
  predicate IsbnShaped(seg: string)
  {
    |seg| >= 10 && forall k :: 0 <= k < |seg| ==> IsbnChar(seg[k])
  }

  /**
   * The test of the link scan in `_extract_first_result`: a non-empty link through "/book/"
   * whose last segment, once the fragment is gone, is ISBN shaped.
   */
  predicate IsProductLink(href: string)
  {
    href != "" && Contains(href, "/book/") && IsbnShaped(Last(Split(NoFragment(href), '/')))
  }

  /** The link scan: the first product link in page order, without its fragment. */
  function ProductLink(hrefs: seq<string>): Option<string>
  {
    match FirstWhere(hrefs, IsProductLink, 0)
    case Some(href) => Some(NoFragment(href))
    case None => None
  }

  /**
   * There is no product link exactly when no link passes the test; otherwise it is the first
   * link that passes, without its fragment, and it ends in an ISBN-shaped segment.
   */
  lemma ProductLinkFacts(hrefs: seq<string>)
    ensures ProductLink(hrefs).None? <==> forall k :: 0 <= k < |hrefs| ==> !IsProductLink(hrefs[k])
    ensures ProductLink(hrefs).Some? ==>
      exists k :: 0 <= k < |hrefs| && IsProductLink(hrefs[k]) && ProductLink(hrefs).value == NoFragment(hrefs[k]) &&
        forall j :: 0 <= j < k ==> !IsProductLink(hrefs[j])
    ensures ProductLink(hrefs).Some? ==>
      ProductLink(hrefs).value != "" && IsbnShaped(Last(Split(ProductLink(hrefs).value, '/')))
  {
    match FirstWhere(hrefs, IsProductLink, 0)
    case Some(href) =>
      var seg := Last(Split(NoFragment(href), '/'));
      SplitLast(NoFragment(href), '/');
    case None =>
  }

  /** What the scraper reads from a product page: the first `h1`'s text and the body text. */
  datatype ProductPage = ProductPage(heading: Option<string>, body: string)

  /** The first `£\d+[.,]\d{2}` amount of the text, or "N/A". */
  function ProductPrice(body: string): string
  {
    var prices := FindAll(PoundBefore, body);
    if |prices| > 0 then prices[0] else NoPrice
  }

  /** `_extract_from_product_page` for a link and the page its URL shows. */
  function ProductResult(href: string, page: ProductPage): BookResult
  {
    BookResult(Name, Strip(page.heading.GetOr("Unknown")), ProductPrice(page.body), Absolute(BaseUrl, href), UrlIsbn(href))
  }

  /**
   * `search`, and `search_isbn`, which searches for the ISBN as a query: the product page of the
   * first product link, or nothing when there is none.
   */
  function SearchQuery(hrefs: seq<string>, pages: string -> ProductPage): Option<BookResult>
  {
    match ProductLink(hrefs)
    case Some(link) => Some(ProductResult(link, pages(Absolute(BaseUrl, link))))
    case None => None
  }

  /**
   * The price is "N/A" exactly when the text has no pound amount, and otherwise the leftmost
   * one, from its '£' to its last decimal digit.
   */
  lemma ProductPriceFacts(body: string)
    ensures ProductPrice(body) == NoPrice <==> Search(PoundBefore, body).None?
    ensures Search(PoundBefore, body).Some? ==>
      var price := ProductPrice(body);
      price == Search(PoundBefore, body).value && price[0] == Pound && IsDigit(price[|price| - 1])
  {
    FindAllStartsWithSearch(PoundBefore, body);
    if Search(PoundBefore, body).Some? {
      var i := SearchFrom(PoundBefore, body, 0).value;
      var n := MatchAt(PoundBefore, body, i).value;
      var price := body[i..i + n];
      assert price[0] == body[i] && price[n - 1] == body[i + n - 1];
    } else {
      assert NoPrice[0] == 'N';
    }
  }

  /** A segment that does not end in '/' is the last segment of its link, trailing slashes and all. */
  lemma LastSegmentOfLink(link: string)
    requires |Last(Split(link, '/'))| > 0
    ensures LastSegment(link) == Last(Split(link, '/'))
  {
    var seg := Last(Split(link, '/'));
    SplitLast(link, '/');
    assert link[|link| - 1] == seg[|seg| - 1] by {
      assert link[|link| - |seg|..][|seg| - 1] == seg[|seg| - 1];
    }
    assert seg[|seg| - 1] in seg;
    assert RStrip(link, '/') == link;
  }

  /**
   * The ISBN of the chosen link's page: its last segment when the segment holds a digit, and
   * nothing when it is all X's, although the link scan accepted it.
   */
  lemma ProductLinkIsbn(link: string, page: ProductPage)
    requires IsbnShaped(Last(Split(link, '/')))
    ensures var seg := Last(Split(link, '/'));
      ProductResult(link, page).isbn == if exists k :: 0 <= k < |seg| && IsDigit(seg[k]) then Some(seg) else None
  {
    LastSegmentOfLink(link);
    LooksLikeIsbnMeans(Last(Split(link, '/')));
  }

  /** The search gives a result exactly when there is a product link, and that result is Wordery's page for it. */
  lemma SearchQueryFacts(hrefs: seq<string>, pages: string -> ProductPage)
    ensures SearchQuery(hrefs, pages).None? <==> forall k :: 0 <= k < |hrefs| ==> !IsProductLink(hrefs[k])
    ensures SearchQuery(hrefs, pages).Some? ==>
      var r := SearchQuery(hrefs, pages).value;
      r.store == Name && r.url == Absolute(BaseUrl, ProductLink(hrefs).value) &&
      (r.isbn.Some? ==> r.isbn.value == Last(Split(ProductLink(hrefs).value, '/')))
  {
    ProductLinkFacts(hrefs);
    match ProductLink(hrefs)
    case Some(link) =>
      var page := pages(Absolute(BaseUrl, link));
      ProductLinkIsbn(link, page);
      assert SearchQuery(hrefs, pages) == Some(ProductResult(link, page));
    case None =>
  }
}
