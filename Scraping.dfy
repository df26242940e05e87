/** String rules the store scrapers share: absolute URLs and ISBN-shaped URL segments. */
module Scraping {
  import opened Wrappers
  import opened Text
  import opened Models
  import opened Dedup

  /** `href if href.startswith("http") else base_url + href` */
  function Absolute(baseUrl: string, href: string): (url: string)
    ensures EndsWith(url, href)
    ensures StartsWith(href, "http") ==> url == href
    ensures StartsWith(baseUrl, "http") ==> StartsWith(url, "http")
  {
    if StartsWith(href, "http") then href else baseUrl + href
  }

  predicate IsbnChar(c: char) {
    IsDigit(c) || c == 'X' || c == 'x'
  }

  /**
   * `len(s) >= 10 and s.replace("X", "").replace("x", "").isdigit()`: the test a URL segment
   * passes to be taken for an ISBN.
   */
  predicate LooksLikeIsbn(s: string) {
    |s| >= 10 && IsDigits(Replace(Replace(s, "X", ""), "x", ""))
  }

  /** The test accepts exactly the segments of ten or more `[0-9Xx]` characters with at least one digit. */
  lemma LooksLikeIsbnMeans(s: string)
    ensures LooksLikeIsbn(s) <==>
      |s| >= 10 && (forall k :: 0 <= k < |s| ==> IsbnChar(s[k])) && exists k :: 0 <= k < |s| && IsDigit(s[k])
  {
    var once := Replace(s, "X", "");
    var twice := Replace(once, "x", "");
    RemoveChar(s, 'X');
    RemoveChar(once, 'x');
    assert forall c :: c in twice <==> c in s && c != 'X' && c != 'x';
    if LooksLikeIsbn(s) {
      forall k | 0 <= k < |s| ensures IsbnChar(s[k]) {
        if s[k] != 'X' && s[k] != 'x' {
          assert s[k] in twice;
        }
      }
      assert twice[0] in s;
    }
    if |s| >= 10 && (forall k :: 0 <= k < |s| ==> IsbnChar(s[k])) && exists k :: 0 <= k < |s| && IsDigit(s[k]) {
      var k :| 0 <= k < |s| && IsDigit(s[k]);
      assert s[k] in twice;
      forall i | 0 <= i < |twice| ensures IsDigit(twice[i]) {
        assert twice[i] in s;
      }
    }
  }

  /** A segment made only of X's (such as "XXXXXXXXXX") is not taken for an ISBN: nothing is left to be digits. */
  lemma AllXIsNotIsbn(s: string)
    requires forall k :: 0 <= k < |s| ==> s[k] == 'X' || s[k] == 'x'
    ensures !LooksLikeIsbn(s)
  {
    LooksLikeIsbnMeans(s);
  }

  /** `href.rstrip("/").split("/")[-1]`: the last path segment, trailing slashes ignored. */
  function LastSegment(href: string): (seg: string)
    ensures '/' !in seg
    ensures EndsWith(RStrip(href, '/'), seg)
    ensures |seg| < |RStrip(href, '/')| ==> RStrip(href, '/')[|RStrip(href, '/')| - |seg| - 1] == '/'
  {
    SplitLast(RStrip(href, '/'), '/');
    Last(Split(RStrip(href, '/'), '/'))
  }

  /** The ISBN a URL ends in, when its last segment looks like one. */
  function UrlIsbn(href: string): (isbn: Option<string>)
    ensures isbn.Some? ==> isbn.value == LastSegment(href) && LooksLikeIsbn(isbn.value)
    ensures isbn.None? ==> !LooksLikeIsbn(LastSegment(href))
  {
    var seg := LastSegment(href);
    if LooksLikeIsbn(seg) then Some(seg) else None
  }

  /** The key the `seen_isbns` loops deduplicate search items by. */
  function ItemIsbn(item: SearchResultItem): Option<string> { item.isbn }

  /** The tail of a `seen_isbns` loop body: an item is added, and its ISBN recorded, when the ISBN is new. */
  method KeepIfNew(items: seq<SearchResultItem>, results: seq<SearchResultItem>, seenIsbns: set<string>,
                   item: SearchResultItem)
    returns (results': seq<SearchResultItem>, seenIsbns': set<string>)
    requires item.isbn.Some?
    requires results == FirstByKey(items, ItemIsbn)
    requires forall k :: k in seenIsbns <==> Some(k) in KeySet(results, ItemIsbn)
    ensures results' == FirstByKey(items + [item], ItemIsbn)
    ensures forall k :: k in seenIsbns' <==> Some(k) in KeySet(results', ItemIsbn)
    ensures results' == results || results' == results + [item]
  {
    results', seenIsbns' := results, seenIsbns;
    var potentialIsbn := item.isbn.value;
    FirstByKeyStep(items, item, ItemIsbn);
    if potentialIsbn !in seenIsbns {
      seenIsbns' := seenIsbns + {potentialIsbn};
      SeenStep(results, item, seenIsbns);
      results' := results + [item];
    } else {
      assert ItemIsbn(item) in KeySet(results, ItemIsbn);
    }
  }

  lemma SeenStep(results: seq<SearchResultItem>, item: SearchResultItem, seenIsbns: set<string>)
    requires item.isbn.Some?
    requires forall k :: k in seenIsbns <==> Some(k) in KeySet(results, ItemIsbn)
    ensures forall k :: k in seenIsbns + {item.isbn.value} <==> Some(k) in KeySet(results + [item], ItemIsbn)
  {
    KeySetAppend(results, item, ItemIsbn);
  }
}
