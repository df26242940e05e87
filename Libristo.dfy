/**
 * The libristo.eu scraper (src/bookscout/scrapers/libristo.py) without its browser: the `href`
 * attributes of the search page's links (a missing attribute read as ""), and the heading and
 * text of a product page, are inputs.
 */
module Libristo {
  import opened Wrappers
  import opened Text
  import opened Patterns
  import opened Models
  import opened Dedup
  import opened Scraping

  const Name: string := "Libristo"
  const BaseUrl: string := "https://www.libristo.eu"

  /** A book path in English, Czech or German: the first half of the link test. */
  predicate IsBookPath(href: string)
  {
    Contains(href, "/book/") || Contains(href, "/kniha/") || Contains(href, "/buch/")
  }

  /** A category or search page: the links the loop skips. */
  predicate IsNavigation(href: string)
  {
    Contains(href, "/book/category") || Contains(href, "/book/search")
  }

  /** The link test of `_extract_first_result`. */
  predicate IsProductHref(href: string)
  {
    href != "" && IsBookPath(href) && !IsNavigation(href)
  }

  /**
   * The loop of `_extract_first_result`: skips navigation links, stops at the first book link.
   * The link it returns is a non-empty book link that is no category or search page, and no
   * link before it is one; it returns nothing exactly when no link qualifies.
   */
  method FirstProductHref(hrefs: seq<string>) returns (productHref: Option<string>)
    ensures productHref == FirstWhere(hrefs, IsProductHref, 0)
    ensures productHref.None? <==> forall k :: 0 <= k < |hrefs| ==> !IsProductHref(hrefs[k])
    ensures productHref.Some? ==>
      exists k :: 0 <= k < |hrefs| && hrefs[k] == productHref.value && IsProductHref(hrefs[k]) &&
        forall j :: 0 <= j < k ==> !IsProductHref(hrefs[j])
  {
    productHref := None;
    var i := 0;
    while i < |hrefs|
      invariant i <= |hrefs|
      invariant FirstWhere(hrefs, IsProductHref, 0) == FirstWhere(hrefs, IsProductHref, i)
    {
      var href := hrefs[i];
      if href != "" && (Contains(href, "/book/") || Contains(href, "/kniha/") || Contains(href, "/buch/")) {
        if Contains(href, "/book/category") || Contains(href, "/book/search") {
          i := i + 1;
          continue;
        }
        productHref := Some(href);
        break;
      }
      i := i + 1;
    }
  }

  /** What the scraper reads from a product page: the first `h1`'s text and the body text. */
  datatype ProductPage = ProductPage(heading: Option<string>, body: string)

  /** The first `€\s*\d+[.,]\d{2}` or `\d+[.,]\d{2}\s*€` amount of the text, stripped, or "N/A". */
  function ProductPrice(body: string): string
  {
    var prices := FindAll(EuroEither, body);
    if |prices| > 0 then Strip(prices[0]) else NoPrice
  }

  /** The ISBN: the digits after an "ISBN" label in the text, else the first ISBN-long digit run of the link. */
  function ProductIsbn(href: string, body: string): Option<string>
  {
    match Search(IsbnLabel, body)
    case Some(isbn) => Some(isbn)
    case None => Search(IsbnDigits, href)
  }

  /** `_extract_from_product_page` for a link and the page its URL shows. */
  function ProductResult(href: string, page: ProductPage): BookResult
  {
    BookResult(Name, Strip(page.heading.GetOr("Unknown")), ProductPrice(page.body), Absolute(BaseUrl, href),
               ProductIsbn(href, page.body))
  }

  /**
   * `search`, and `search_isbn`, which searches for the ISBN as a query: the product page of the
   * first product link, or nothing when there is none.
   */
  method SearchQuery(hrefs: seq<string>, pages: string -> ProductPage) returns (result: Option<BookResult>)
    ensures result.None? <==> forall k :: 0 <= k < |hrefs| ==> !IsProductHref(hrefs[k])
    ensures result.Some? ==>
      var href := FirstWhere(hrefs, IsProductHref, 0).value;
      result.value == ProductResult(href, pages(Absolute(BaseUrl, href)))
  {
    var productHref := FirstProductHref(hrefs);
    if productHref.None? || productHref.value == "" {
      result := None;
    } else {
      var href := productHref.value;
      var url := if StartsWith(href, "http") then href else BaseUrl + href;
      result := Some(ProductResult(href, pages(url)));
    }
  }

  /** An amount the euro pattern matches has the euro sign at one of its ends and no white space at either. */
  lemma EuroAmountEnds(s: string, i: nat)
    requires i <= |s| && MatchAt(EuroEither, s, i).Some?
    ensures var n := MatchAt(EuroEither, s, i).value;
      (s[i] == Euro || s[i + n - 1] == Euro) && !IsSpace(s[i]) && !IsSpace(s[i + n - 1])
  {
    MatchUnpadded(EuroEither, s, i);
  }

  /** With a euro amount in the text, the price is the leftmost one as it stands (stripping changes nothing). */
  lemma PriceIsLeftmost(body: string)
    requires Search(EuroEither, body).Some?
    ensures ProductPrice(body) == Search(EuroEither, body).value
  {
    FindAllStartsWithSearch(EuroEither, body);
    FindAllFromUnpadded(EuroEither, body, 0);
    var prices := FindAll(EuroEither, body);
    assert Unpadded(prices[0]);
    StripUntouched(prices[0]);
  }

  /** The leftmost euro amount, as a slice of the text, has the euro sign at one of its ends. */
  lemma LeftmostEuroEnds(body: string)
    requires Search(EuroEither, body).Some?
    ensures var price := Search(EuroEither, body).value; price[0] == Euro || price[|price| - 1] == Euro
  {
    var i := SearchFrom(EuroEither, body, 0).value;
    var n := MatchAt(EuroEither, body, i).value;
    var price := body[i..i + n];
    assert Search(EuroEither, body) == Some(price);
    EuroAmountEnds(body, i);
    assert price[0] == body[i] && price[n - 1] == body[i + n - 1];
  }

  /**
   * The price is "N/A" exactly when the text has no euro amount, and otherwise the leftmost one
   * as it stands in the text (stripping changes nothing), with the euro sign at one of its ends.
   */
  lemma ProductPriceFacts(body: string)
    ensures ProductPrice(body) == NoPrice <==> Search(EuroEither, body).None?
    ensures Search(EuroEither, body).Some? ==>
      var price := ProductPrice(body);
      price == Search(EuroEither, body).value && (price[0] == Euro || price[|price| - 1] == Euro)
  {
    FindAllStartsWithSearch(EuroEither, body);
    if Search(EuroEither, body).Some? {
      PriceIsLeftmost(body);
      LeftmostEuroEnds(body);
      assert ProductPrice(body)[0] == Euro || ProductPrice(body)[|ProductPrice(body)| - 1] == Euro;
      assert ProductPrice(body) != NoPrice by { assert NoPrice[0] == 'N'; }
    } else {
      assert NoPrice[0] == 'N';
    }
  }

  /**
   * A labelled ISBN in the text wins, and is ten to thirteen digits; without one the ISBN comes
   * from the link and is ten or thirteen digits standing in it; without either there is none.
   */
  lemma ProductIsbnFacts(href: string, body: string)
    ensures Search(IsbnLabel, body).Some? ==>
      ProductIsbn(href, body) == Search(IsbnLabel, body) &&
      10 <= |ProductIsbn(href, body).value| <= 13 && IsDigits(ProductIsbn(href, body).value)
    ensures Search(IsbnLabel, body).None? ==> ProductIsbn(href, body) == Search(IsbnDigits, href)
    ensures Search(IsbnLabel, body).None? && ProductIsbn(href, body).Some? ==>
      var isbn := ProductIsbn(href, body).value;
      (|isbn| == 10 || |isbn| == 13) && IsDigits(isbn) && exists i :: 0 <= i <= |href| && StartsWith(href[i..], isbn)
    ensures ProductIsbn(href, body).None? <==> Search(IsbnLabel, body).None? && Search(IsbnDigits, href).None?
  {
    if Search(IsbnLabel, body).Some? {
      SearchIsbnLabel(body);
    } else if Search(IsbnDigits, href).Some? {
      SearchIsbnDigits(href);
    }
  }
}
