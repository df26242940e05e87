/** The records the scrapers produce (src/bookscout/models.py and the search-result items). */
module Models {
  import opened Wrappers

  /** A store's answer for one book; `isbn` is absent when the page shows none. */
  datatype BookResult = BookResult(store: string, title: string, price: string, url: string, isbn: Option<string>)

  /** One entry of a store's search-results page, read without visiting the product page. */
  datatype SearchResultItem = SearchResultItem(isbn: Option<string>, url: string, title: Option<string>)

  /** The price text a scraper reports when it finds no price. */
  const NoPrice: string := "N/A"
}
