/**
 * The result slots of `run_scrapers` (src/bookscout/cli.py): which store operation each mode
 * calls, how a raised exception becomes an empty slot, and the two-phase search that resolves a
 * canonical ISBN before fetching details.
 *
 * Concurrency is not modelled: `asyncio.gather` keeps its tasks' order, so the stores are
 * visited one after another. A store's operations are given as functions from their argument
 * to what the call does, returning a value or raising.
 */
module Pipeline {
  import opened Wrappers
  import opened Models
  import opened Resolver

  /** What awaiting a store operation gives: its value, or an exception. */
  datatype Outcome<T> = Returned(value: T) | Raised

  /** One store's scraper, seen through the four operations `run_scrapers` calls. */
  datatype Adapter = Adapter(
    search: string -> Outcome<Option<BookResult>>,
    searchIsbn: string -> Outcome<Option<BookResult>>,
    getSearchResults: string -> Outcome<seq<SearchResultItem>>,
    getProductDetails: string -> Outcome<Option<BookResult>>)

  /** The slot a detail call fills: an exception becomes `None`. */
  function Settle(o: Outcome<Option<BookResult>>): Option<BookResult>
  {
    match o
    case Returned(r) => r
    case Raised => None
  }

  /** The phase-one list a store contributes: a failed or empty search gives `[]`. */
  function Phase1Slot(o: Outcome<seq<SearchResultItem>>): seq<SearchResultItem>
  {
    match o
    case Returned(items) => items
    case Raised => []
  }

  /** Every store's phase-one list, in store order. */
  function Phase1(query: string, adapters: seq<Adapter>): (lists: seq<seq<SearchResultItem>>)
    ensures |lists| == |adapters|
    ensures forall i :: 0 <= i < |adapters| ==> lists[i] == Phase1Slot(adapters[i].getSearchResults(query))
  {
    seq(|adapters|, i requires 0 <= i < |adapters| => Phase1Slot(adapters[i].getSearchResults(query)))
  }

  /** The URL of the first search item whose ISBN is the canonical one. */
  function MatchingUrl(items: seq<SearchResultItem>, isbn: string): (u: Option<string>)
    ensures u.None? <==> forall j :: 0 <= j < |items| ==> items[j].isbn != Some(isbn)
    ensures u.Some? ==>
      exists i :: 0 <= i < |items| && items[i].isbn == Some(isbn) && items[i].url == u.value &&
        forall j :: 0 <= j < i ==> items[j].isbn != Some(isbn)
  {
    if |items| == 0 then None
    else if items[0].isbn == Some(isbn) then Some(items[0].url)
    else
      var u := MatchingUrl(items[1..], isbn);
      assert forall j :: 1 <= j < |items| ==> items[1..][j - 1] == items[j];
      u
  }

  /**
   * What phase two gives a store: its product page at the matching URL, or, when it listed no
   * item with the canonical ISBN or that item's URL is empty, a search by the ISBN itself.
   */
  function Detail(adapter: Adapter, items: seq<SearchResultItem>, isbn: string): Option<BookResult>
  {
    var u := MatchingUrl(items, isbn);
    if u.Some? && u.value != "" then Settle(adapter.getProductDetails(u.value))
    else Settle(adapter.searchIsbn(isbn))
  }

  /** `fetch_details`: look for the first item with the canonical ISBN, then fetch. */
  method FetchDetails(adapter: Adapter, items: seq<SearchResultItem>, isbn: string) returns (r: Option<BookResult>)
    ensures r == Detail(adapter, items, isbn)
  {
    var matchingUrl: Option<string> := None;
    var j := 0;
    while j < |items|
      invariant 0 <= j <= |items|
      invariant MatchingUrl(items, isbn) == if matchingUrl.Some? then matchingUrl else MatchingUrl(items[j..], isbn)
      invariant matchingUrl.None? ==> forall k :: 0 <= k < j ==> items[k].isbn != Some(isbn)
    {
      if items[j].isbn == Some(isbn) {
        matchingUrl := Some(items[j].url);
        SkipNonMatching(items, j, isbn);
        break;
      }
      assert items[j..][1..] == items[j + 1..];
      j := j + 1;
    }
    if matchingUrl.Some? && matchingUrl.value != "" {
      r := Settle(adapter.getProductDetails(matchingUrl.value));
    } else {
      r := Settle(adapter.searchIsbn(isbn));
    }
  }

  /** When none of the first `j` items matches, the search starts afresh at `j`. */
  lemma SkipNonMatching(items: seq<SearchResultItem>, j: nat, isbn: string)
    requires j < |items| && items[j].isbn == Some(isbn)
    requires forall k :: 0 <= k < j ==> items[k].isbn != Some(isbn)
    ensures MatchingUrl(items, isbn) == Some(items[j].url)
  {
    var u := MatchingUrl(items, isbn);
    var i :| 0 <= i < |items| && items[i].isbn == Some(isbn) && items[i].url == u.value &&
      forall k :: 0 <= k < i ==> items[k].isbn != Some(isbn);
    assert i == j;
  }

  /**
   * `run_scrapers`: one slot per store, in store order. In ISBN mode every store searches by the
   * ISBN; with validation every store lists its search results, the weighted resolver picks a
   * canonical ISBN and, if there is one, every store fetches its details for it; otherwise every
   * store runs its own search. Any exception leaves that store's slot `None`.
   */
  method RunScrapers(query: string, adapters: seq<Adapter>, isbnMode: bool, validateIsbn: bool)
    returns (results: seq<Option<BookResult>>, ghost canonical: Option<string>)
    ensures |results| == |adapters|
    ensures isbnMode ==>
      forall i :: 0 <= i < |adapters| ==> results[i] == Settle(adapters[i].searchIsbn(query))
    ensures !isbnMode && validateIsbn ==> IsCanonical(Phase1(query, adapters), DefaultPenalty, canonical)
    ensures !isbnMode && validateIsbn && canonical.Some? ==>
      forall i :: 0 <= i < |adapters| ==>
        results[i] == Detail(adapters[i], Phase1(query, adapters)[i], canonical.value)
    ensures !isbnMode && (!validateIsbn || canonical.None?) ==>
      forall i :: 0 <= i < |adapters| ==> results[i] == Settle(adapters[i].search(query))
  {
    canonical := None;
    if isbnMode {
      results := SearchAll(query, adapters, true);
      return;
    }
    if validateIsbn {
      var storeSearchResults := CollectSearchResults(query, adapters);
      var canonicalIsbn := FindCanonicalIsbnWeighted(storeSearchResults, DefaultPenalty);
      canonical := canonicalIsbn;
      if canonicalIsbn.Some? {
        results := FetchAll(adapters, storeSearchResults, canonicalIsbn.value);
        return;
      }
    }
    results := SearchAll(query, adapters, false);
  }

  /** One direct search per store, by ISBN or by the query; an exception leaves `None`. */
  method SearchAll(query: string, adapters: seq<Adapter>, byIsbn: bool) returns (results: seq<Option<BookResult>>)
    ensures |results| == |adapters|
    ensures forall i :: 0 <= i < |adapters| ==>
      results[i] == Settle(if byIsbn then adapters[i].searchIsbn(query) else adapters[i].search(query))
  {
    results := [];
    for i := 0 to |adapters|
      invariant |results| == i
      invariant forall k :: 0 <= k < i ==>
        results[k] == Settle(if byIsbn then adapters[k].searchIsbn(query) else adapters[k].search(query))
    {
      var r := if byIsbn then adapters[i].searchIsbn(query) else adapters[i].search(query);
      if r.Raised? {
        results := results + [None];
      } else {
        results := results + [r.value];
      }
    }
  }

  /** Phase one: every store's search-result items, `[]` for a store that failed or found nothing. */
  method CollectSearchResults(query: string, adapters: seq<Adapter>) returns (lists: seq<seq<SearchResultItem>>)
    ensures lists == Phase1(query, adapters)
  {
    lists := [];
    for i := 0 to |adapters|
      invariant lists == Phase1(query, adapters)[..i]
    {
      var result := adapters[i].getSearchResults(query);
      if result.Raised? || result.value == [] {
        lists := lists + [[]];
      } else {
        lists := lists + [result.value];
      }
    }
  }

  /** Phase two: every store's details for the canonical ISBN. */
  method FetchAll(adapters: seq<Adapter>, lists: seq<seq<SearchResultItem>>, isbn: string)
    returns (results: seq<Option<BookResult>>)
    requires |lists| == |adapters|
    ensures |results| == |adapters|
    ensures forall i :: 0 <= i < |adapters| ==> results[i] == Detail(adapters[i], lists[i], isbn)
  {
    results := [];
    for i := 0 to |adapters|
      invariant |results| == i
      invariant forall k :: 0 <= k < i ==> results[k] == Detail(adapters[k], lists[k], isbn)
    {
      var r := FetchDetails(adapters[i], lists[i], isbn);
      results := results + [r];
    }
  }
}
