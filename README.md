# bookscout in Dafny

A model of the decision logic of bookscout, a command-line tool. It compares the price of one book
across four online bookshops: Blackwells, Kennys, Libristo and Wordery. The model covers:

- **Canonical ISBN** (`Resolver`). bookscout first reads each shop's search results. It then picks
  the ISBN the shops most likely mean:
  - The weighted resolver gives an ISBN `1/p` for the first position `p` at which each store lists
    it, and adds these up over the stores.
  - It multiplies the score of ISBNs starting "9798" by a penalty (0.3 by default).
  - It returns the ISBN with the highest score.
  - A plain majority vote is also modelled, over a list of ISBNs and over detail results.
- **Result slots** (`Pipeline`). `run_scrapers` fills one slot per store:
  - In ISBN mode, each store searches by the ISBN.
  - In the two-phase title search, each store fetches the product page at the first search item
    carrying the canonical ISBN, or searches by that ISBN when it has no such item.
  - Otherwise each store searches by the title.
  - An exception leaves that store's slot empty.
- **Display rows** (`Display`):
  - The table's rows, with titles cut at 50 characters.
  - The "Prices found" list.
  - The CSV lines, with quote doubling, proved to read back through RFC 4180 (section 2) quoting.
- **Title matching** (`Matching`). `title_matches_query` checks whether enough of the query's
  words occur in a title.
- **The four scrapers** (`Blackwells`, `Kennys`, `Libristo`, `Wordery`), without a browser.
  - Inputs: the links, texts and lines a page shows.
  - Modelled: which link each scraper follows, which search items it reports (deduplicated by
    ISBN and capped), and how it reads a title, price and ISBN from a product page.
- **Shared modules**:
  - `Text`: the Python string operations the code uses.
  - `Patterns`: the regular expressions, as leftmost-match functions with `search` and `findall`
    built on them.
  - `Dedup`: filtering and keep-first-per-key lists.
  - `Scraping`: URL helpers the scrapers share.

Where the source changes state step by step, the model does the same: loops become methods proved
against a function of their inputs. The score table of the weighted resolver is a `map` kept in
insertion order. The rest of the model is functions and lemmas.

## Model

| member | source | states |
|---|---|---|
| Resolver.FindCanonicalIsbnWeighted | src/bookscout/cli.py:61-109 | returns nothing exactly when no item of any store carries a non-empty ISBN; otherwise the ISBN whose score (the sum over stores of `1/p` for its first 1-based position `p`, times the penalty when it starts "9798" and the penalty is below one) is highest, the first to enter the score table among equals |
| Resolver.AddStore | src/bookscout/cli.py:90-97 | after one store's results the table holds exactly the ISBNs voted so far, in first-seen order, each with its earlier score plus this store's `1/p` at its first position |
| Resolver.AddItem | src/bookscout/cli.py:92-97 | an item with a new non-empty ISBN adds `1/position` to that ISBN and enters it into the table if absent; a repeated or missing ISBN changes nothing |
| Resolver.Penalise | src/bookscout/cli.py:103-106 | keeps the table's keys and leaves every entry at its final score: raw times the penalty for "9798" ISBNs, raw otherwise |
| Resolver.PenaliseKey | src/bookscout/cli.py:104-106 | one loop step: the current key gets its final score and every other key keeps its value |
| Resolver.ArgMax | src/bookscout/cli.py:109 | `max(..., key=scores.get)`: a key of the table no key exceeds, with every earlier key strictly below it |
| Resolver.MaxIsCanonical | src/bookscout/cli.py:108-109 | the first maximal key of the final table is the canonical ISBN |
| Resolver.StoreScoreRange | src/bookscout/cli.py:91-97 | a store contributes between 0 and 1 to an ISBN, and more than 0 exactly when it lists it |
| Resolver.CanonicalIsMaximal | src/bookscout/cli.py:108-109 | the chosen ISBN is a candidate and no candidate's final score exceeds it |
| Resolver.ThreeStores | src/bookscout/cli.py:90-97 | with three stores, the candidates are the union of the stores' votes and each raw score is the sum of the three stores' contributions |
| Resolver.PositionBeatsRepetition | src/bookscout/cli.py:65-75 | in one store listing A, B, B, A wins: repetition adds nothing, position decides |
| Resolver.AgreementBeatsFrequency | src/bookscout/cli.py:70-75 | stores [A], [A], [B, B, A] pick A: first places across stores beat repetition |
| Resolver.PenaltyDemotes | src/bookscout/cli.py:79-106 | stores [X], [X], [Y] with X in the 979-8 range: the default penalty picks Y, while a penalty of 1.0 picks X |
| Resolver.FindCanonicalIsbn | src/bookscout/cli.py:50-58 | nothing exactly for an empty list; otherwise an ISBN of the list that no other occurs more often than, the first seen among equals (`Counter.most_common(1)`) |
| Resolver.MajorityBeatsAll | src/bookscout/cli.py:50-58 | no ISBN at all occurs in the list more often than the majority pick |
| Resolver.ResultIsbns | src/bookscout/cli.py:114 | the list is the ISBNs of the present results with a non-empty ISBN, in result order, one entry per such result; an ISBN is in it exactly when some result carries it |
| Resolver.CarriersCount | src/bookscout/cli.py:114 | an ISBN occurs in that list as many times as there are results carrying it |
| Resolver.FromResultsBeatsAll | src/bookscout/cli.py:112-115 | no ISBN is carried by more results than the majority pick over the results' ISBNs |
| Resolver.FromResultsFirst | src/bookscout/cli.py:112-115 | the first result carrying the pick is preceded only by results carrying ISBNs that fewer results carry |
| Resolver.FindCanonicalIsbnFromResults | src/bookscout/cli.py:112-115 | nothing exactly when no result carries an ISBN; otherwise the ISBN carried by the most results, and among equally common ones the first carried |
| Pipeline.Phase1 | src/bookscout/cli.py:153-163 | one list per store, in store order, `[]` when that store's search-result call raised |
| Pipeline.MatchingUrl | src/bookscout/cli.py:174-178 | the URL of the first item whose ISBN is the canonical one, and nothing exactly when no item has it |
| Pipeline.FetchDetails | src/bookscout/cli.py:171-186 | the product details at the matching URL when it is non-empty, else a search by the ISBN; an exception gives nothing |
| Pipeline.RunScrapers | src/bookscout/cli.py:118-210 | one slot per store, in order: ISBN mode searches each store by the ISBN; with validation the canonical ISBN is the weighted resolver's pick over phase one, and when there is one every slot is that store's detail fetch; otherwise every slot is the store's own search; an exception leaves `None` |
| Pipeline.SearchAll | src/bookscout/cli.py:137-148 | one slot per store holding its search (by ISBN or by query), `None` where it raised |
| Pipeline.CollectSearchResults | src/bookscout/cli.py:153-163 | builds exactly the phase-one lists |
| Pipeline.FetchAll | src/bookscout/cli.py:188-195 | one detail fetch per store, in store order |
| Display.Capitalize | src/bookscout/cli.py:230 | `str.capitalize`: same length, first character upper case, the rest lower case |
| Display.StoreLabelIsScraperName | src/bookscout/cli.py:222-230 | for every store, the "Not found" row's label (the capitalized store value) is the name that store's scraper in `SCRAPER_MAP` (cli.py:42-47) puts on a found row |
| Display.TableTitle | src/bookscout/cli.py:225 | a title of at most 50 characters is shown whole; a longer one as its first 50 characters followed by "..." |
| Display.ZipRows | src/bookscout/cli.py:221 | one row per `zip(stores, results)` pair, as far as the shorter sequence goes |
| Display.TableRows | src/bookscout/cli.py:221-230 | row `i` shows result `i`'s store, cut title, price and URL, or the store label, "-", "Not found", "-" when there is no result |
| Display.PricesFound | src/bookscout/cli.py:235 | the present results whose price is not "N/A", in result order, one entry per such result; a result is listed exactly when it is present and priced |
| Display.CsvLines | src/bookscout/cli.py:271-280 | the header line, then one line per `zip(stores, results)` pair |
| Display.CsvTitleRoundTrip | src/bookscout/cli.py:276-278 | a title with its quotes doubled, closed by a quote, reads back as the title, leaving what follows |
| Display.CsvLineTitle | src/bookscout/cli.py:277-278 | a CSV row starts with the store and an opening quote, and its title field reads back as the title, followed by the rest of the row |
| Matching.TitleMatchesQuery | src/bookscout/scrapers/base.py:11-37 | true when the query has no words, otherwise exactly when the number of shared lower-cased words is at least `threshold` times the number of query words |
| Matching.CaseInsensitive | src/bookscout/scrapers/base.py:23-28 | changing letter case in title or query does not change the answer |
| Matching.ThresholdMonotone | src/bookscout/scrapers/base.py:37 | a lower threshold accepts whatever a higher one accepts |
| Matching.MatchesItself | src/bookscout/scrapers/base.py:27-37 | a text matches itself at any threshold up to 1 |
| Matching.MoreTitleWords | src/bookscout/scrapers/base.py:33-37 | a title with a superset of words matches whatever the smaller one matched |
| Matching.AppendedWordsKeepMatch | src/bookscout/scrapers/base.py:27-37 | appending text after a separator never turns a match into a miss |
| Matching.SingleWord | src/bookscout/scrapers/base.py:27 | `\w+` finds a run of word characters as one word |
| Matching.SeparatorSplitsWords | src/bookscout/scrapers/base.py:26-28 | two word runs joined by a non-word character give exactly their two lower-cased words |
| Scraping.Absolute | src/bookscout/scrapers/blackwells.py:132 | the URL ends with the link, is the link itself when the link starts "http", and starts "http" when the base does |
| Scraping.LooksLikeIsbnMeans | src/bookscout/scrapers/blackwells.py:74 | the segment test accepts exactly ten or more characters from `[0-9Xx]` with at least one digit |
| Scraping.AllXIsNotIsbn | src/bookscout/scrapers/blackwells.py:74 | a segment of only X's is rejected |
| Scraping.LastSegment | src/bookscout/scrapers/wordery.py:105-108 | the last segment has no '/', ends the link without its trailing slashes, and is preceded by a '/' when it is not all of it |
| Scraping.UrlIsbn | src/bookscout/scrapers/wordery.py:104-110 | the ISBN is the last segment when the segment test accepts it, and nothing exactly when it does not |
| Scraping.KeepIfNew | src/bookscout/scrapers/blackwells.py:75-80 | an item with an unseen ISBN is appended and its ISBN recorded; the list stays the keep-first-per-ISBN list of the items so far |
| Blackwells.SlugTitleHasNoHyphen | src/bookscout/scrapers/blackwells.py:79 | no hyphen survives in a slug turned title |
| Blackwells.LinkParts | src/bookscout/scrapers/blackwells.py:70 | splitting the stripped link gives at least one segment |
| Blackwells.LinkItemOf | src/bookscout/scrapers/blackwells.py:69-80 | a non-empty link whose last segment passes the test gives an item with that ISBN |
| Blackwells.GetSearchResults | src/bookscout/scrapers/blackwells.py:60-82 | the items of the first 15 links that give one, keeping the first item per ISBN, in link order |
| Blackwells.VisitLink | src/bookscout/scrapers/blackwells.py:65-80 | one loop step keeps the result list and the seen set in step with the links visited |
| Blackwells.ReadLink | src/bookscout/scrapers/blackwells.py:65-79 | an empty link gives nothing; any item read carries an ISBN |
| Blackwells.SearchResultsDistinct | src/bookscout/scrapers/blackwells.py:61-82 | at most 15 items, with pairwise different ISBNs |
| Blackwells.SearchResultSource | src/bookscout/scrapers/blackwells.py:64-80 | each item comes from a non-empty link among the first 15: its ISBN is that link's accepted last segment and its URL the link made absolute |
| Blackwells.SearchResultsComplete | src/bookscout/scrapers/blackwells.py:64-80 | every accepted link among the first 15 has its ISBN among the results |
| Blackwells.ChooseFirstResult | src/bookscout/scrapers/blackwells.py:94-127 | the first of the first ten links whose slug title matches the query; failing that some non-empty link among them; nothing exactly when they are all empty |
| Blackwells.TryLink | src/bookscout/scrapers/blackwells.py:104-117 | a non-empty link is recorded as seen, and it is taken exactly when it was unseen and its slug title matches |
| Blackwells.FindSelectorPrice | src/bookscout/scrapers/blackwells.py:163-176 | the selector loop gives the first price found in a selector text that is not a "Save" discount, else "N/A" |
| Blackwells.FindPriceAbove | src/bookscout/scrapers/blackwells.py:187-193 | the nearest whole price line among the four lines above, else "N/A" |
| Blackwells.FindLookBackPrice | src/bookscout/scrapers/blackwells.py:179-195 | the price above the first "Add to basket" line that has one, else "N/A" |
| Blackwells.PriceAboveNotNoPrice | src/bookscout/scrapers/blackwells.py:191-195 | a price found above a line is never "N/A", so finding one ends the outer loop |
| Blackwells.SelectorPriceFacts | src/bookscout/scrapers/blackwells.py:163-176 | a selector price is a whole `\d+[.,]\d{2}€` amount, the leftmost one in a non-discount text; with none, no non-discount text holds one |
| Blackwells.LookBackFacts | src/bookscout/scrapers/blackwells.py:183-195 | a fallback price is a whole price line, the stripped text of a line one to four lines above an "Add to basket" line |
| Blackwells.PriceAboveFacts | src/bookscout/scrapers/blackwells.py:187-193 | a price above line `i` is a whole price line taken from one of the four lines above it |
| Blackwells.ProductIsbn | src/bookscout/scrapers/blackwells.py:198 | an ISBN exactly when the link has a '/', and then the text after its last '/' |
| Blackwells.ExtractFromProductPage | src/bookscout/scrapers/blackwells.py:129-206 | reads the result off the page the absolute URL shows |
| Blackwells.ProductResultFacts | src/bookscout/scrapers/blackwells.py:129-206 | the result names Blackwells, its URL ends with the link, its title is stripped, its price is "N/A" or a whole price line, and it has an ISBN exactly when the link has a '/' |
| Blackwells.NoPriceIsNoPriceLine | src/bookscout/scrapers/blackwells.py:179 | "N/A" is not a price line, so the fallback runs exactly when no selector price was found |
| Blackwells.SearchQuery | src/bookscout/scrapers/blackwells.py:19-42 | the product page of the first matching link among the first ten, else of some non-empty one; nothing exactly when all are empty |
| Kennys.TailFrom | src/bookscout/scrapers/kennys.py:61 | the leftmost position where `-\d{10,13}(-\d)?$` matches, and no match before it |
| Kennys.TailIsbn | src/bookscout/scrapers/kennys.py:61 | the captured ISBN is ten to thirteen digits |
| Kennys.TailRoundTrip | src/bookscout/scrapers/kennys.py:61-67 | a slug built as base, '-', ISBN and an optional "-d" suffix gives back the base as title text and the ISBN as its digits |
| Kennys.SlugTitleHasNoHyphen | src/bookscout/scrapers/kennys.py:67 | no hyphen survives in the slug title |
| Kennys.ReadLink | src/bookscout/scrapers/kennys.py:57-72 | an empty or off-site link gives nothing; any item read carries an ISBN |
| Kennys.VisitLink | src/bookscout/scrapers/kennys.py:56-74 | one loop step keeps the result list and the seen set in step, growing by at most one item |
| Kennys.GetSearchResults | src/bookscout/scrapers/kennys.py:50-79 | the first ten of the keep-first-per-ISBN items of the on-site links with an ISBN tail |
| Kennys.SearchResultsDistinct | src/bookscout/scrapers/kennys.py:51-76 | at most ten items, with pairwise different ISBNs |
| Kennys.SearchResultSource | src/bookscout/scrapers/kennys.py:56-72 | each item comes from a non-empty kennys.ie link: its URL is the link and its ISBN the link's ten to thirteen tail digits |
| Kennys.KeepLink | src/bookscout/scrapers/kennys.py:101-123 | a link that passes the loop's test and is unseen is pushed and recorded as seen; nothing else changes |
| Kennys.CollectResultHrefs | src/bookscout/scrapers/kennys.py:100-107 | the on-site result links, each once, in page order |
| Kennys.CollectFallbackHrefs | src/bookscout/scrapers/kennys.py:110-124 | the product-shaped links, each once, stopping at fifteen |
| Kennys.CollectProductHrefs | src/bookscout/scrapers/kennys.py:95-127 | the result links, or the fallback links when there are none |
| Kennys.ProductHrefsFacts | src/bookscout/scrapers/kennys.py:95-127 | the links are distinct non-empty kennys.ie links; fallback links are product shaped and at most fifteen; there are none exactly when no result link is on the site and no link is product shaped |
| Kennys.TryHref | src/bookscout/scrapers/kennys.py:135-142 | the link is taken exactly when its slug title, without the ISBN tail, matches the query |
| Kennys.ChooseProduct | src/bookscout/scrapers/kennys.py:129-148 | nothing exactly when there are no links; else the first link whose title matches, else the first link |
| Kennys.ChosenLink | src/bookscout/scrapers/kennys.py:129-148 | the chosen link is one of the links, and it matches whenever any link matches |
| Kennys.ReadTitle | src/bookscout/scrapers/kennys.py:157-167 | the heading when it has text, else the page title before " - ", else the page title; the result is stripped |
| Kennys.ReadPrice | src/bookscout/scrapers/kennys.py:171-186 | the second of the euro amounts under 100, else the only one, else "N/A" |
| Kennys.ExtractFromProductPage | src/bookscout/scrapers/kennys.py:150-200 | reads the result off the page the absolute URL shows |
| Kennys.UnderHundredWhole | src/bookscout/scrapers/kennys.py:179 | the `float(...) < 100` filter keeps a price exactly when its whole euros are under 100 |
| Kennys.ProductPriceFacts | src/bookscout/scrapers/kennys.py:171-197 | the price is "N/A" or an amount from the text under 100 euros, as it appears there; with two or more such amounts it is the second; with none it is "N/A" |
| Kennys.ProductPriceIsPicked | src/bookscout/scrapers/kennys.py:197 | the final strip changes nothing |
| Kennys.PickedPriceSource | src/bookscout/scrapers/kennys.py:176-186 | the picked price is "N/A" or an amount from the text that the filter keeps |
| Kennys.PageTitleFacts | src/bookscout/scrapers/kennys.py:157-196 | the title has no white space at its ends; it is the heading's text when the heading has any, and otherwise the stripped part of the page title before its first " - " (all of it when there is none) |
| Kennys.ProductIsbnFacts | src/bookscout/scrapers/kennys.py:189-192 | an ISBN, when there is one, is ten to thirteen digits |
| Kennys.SearchQuery | src/bookscout/scrapers/kennys.py:19-38 | nothing exactly when the link script finds no links; else the product page of the first matching link, or of the first link |
| Wordery.FragmentFrom | src/bookscout/scrapers/wordery.py:59 | the leftmost position where `#.*$` matches, and no match before it |
| Wordery.NoFragmentCutsAtHash | src/bookscout/scrapers/wordery.py:59-62 | on a link without line breaks, removing the fragment leaves a '#'-free prefix followed by '#' or by nothing |
| Wordery.ProductLinkFacts | src/bookscout/scrapers/wordery.py:53-67 | no link exactly when no link passes the test; otherwise the first link that passes, without its fragment, non-empty and ending in an ISBN-shaped segment |
| Wordery.ProductPriceFacts | src/bookscout/scrapers/wordery.py:96-102 | "N/A" exactly when the text has no pound amount; otherwise the leftmost one, from '£' to its last digit |
| Wordery.LastSegmentOfLink | src/bookscout/scrapers/wordery.py:105-108 | the Python split and the JavaScript split give the same last segment when it is not empty |
| Wordery.ProductLinkIsbn | src/bookscout/scrapers/wordery.py:104-110 | the page's ISBN is the link's last segment when that segment has a digit, and nothing when it is all X's, although the link scan accepted it |
| Wordery.SearchQueryFacts | src/bookscout/scrapers/wordery.py:19-76 | a result exactly when some link passes the test; it names Wordery, its URL is the product link made absolute, and its ISBN is the link's last segment |
| Libristo.FirstProductHref | src/bookscout/scrapers/libristo.py:49-59 | the first non-empty book link that is no category or search page, and nothing exactly when no link qualifies |
| Libristo.SearchQuery | src/bookscout/scrapers/libristo.py:17-64 | nothing exactly when no link qualifies; otherwise the product page of the first qualifying link |
| Libristo.EuroAmountEnds | src/bookscout/scrapers/libristo.py:92 | a euro amount match has the euro sign at one of its ends and no white space at either |
| Libristo.PriceIsLeftmost | src/bookscout/scrapers/libristo.py:92-95 | with a euro amount in the text, the price is the leftmost one, and stripping changes nothing |
| Libristo.LeftmostEuroEnds | src/bookscout/scrapers/libristo.py:92-95 | the leftmost euro amount has the euro sign at one of its ends |
| Libristo.ProductPriceFacts | src/bookscout/scrapers/libristo.py:88-95 | "N/A" exactly when the text has no euro amount; otherwise the leftmost one as it stands, with the euro sign at one of its ends |
| Libristo.ProductIsbnFacts | src/bookscout/scrapers/libristo.py:97-106 | a labelled ISBN in the text wins and is ten to thirteen digits; else the first ten- or thirteen-digit run of the link; none exactly when neither exists |
| Patterns.FindAllStartsWithSearch | src/bookscout/scrapers/wordery.py:100-102 | `findall` is empty exactly when `search` fails, and its first element is the leftmost match |
| Patterns.FindAllFromUnpadded | src/bookscout/scrapers/libristo.py:92-95 | no element `findall` returns starts or ends with white space |
| Patterns.SearchEuroAfter | src/bookscout/scrapers/blackwells.py:173-175 | the price `re.search` captures is itself a whole match of `\d+[.,]\d{2}€` |
| Patterns.SearchIsbnLabel | src/bookscout/scrapers/kennys.py:190-192 | the digits captured after an "ISBN" label (any letter case) are ten to thirteen digits |
| Patterns.SearchIsbnDigits | src/bookscout/scrapers/libristo.py:104-106 | the ISBN the thirteen-or-ten-digit pattern finds is ten or thirteen digits standing in the text |

## Left out

- The browser is not modelled. Page loads, waits, selectors, cookie banners, timeouts and page closing are not modelled; what a page shows is an input.
- A search whose selector wait times out returns `None` or `[]` in the source. The model covers this only through the exception and empty-list slots of `run_scrapers`.
- Concurrency is not modelled. `asyncio.gather` keeps the order of its tasks, so stores are visited one after another.
- URL query encoding (`quote_plus`) and the Kennys hash-change search are not modelled: they only build the address a page is loaded from.
- `a.href` in the Kennys and Wordery page scripts is the browser-resolved link. The model takes it as an input.
- A missing `href` attribute is read as the empty string, which every scraper treats like a missing one.
- Only ASCII is modelled:
  - `\w` and `\d` match ASCII only, and `str.isdigit` is ASCII digits.
  - `\s` and `str.strip` cover ASCII white space and the separators U+001C to U+001F.
  - `str.lower` and `re.IGNORECASE` fold only ASCII letters.
- Python's `$` also matching before a final newline is not modelled. Links and slugs hold no newline.
- Floating point is not modelled. Resolver scores and the penalty are exact `real`s. The ratio `matches / len(query_words)` in `title_matches_query` (base.py:35-37) is compared exactly: Matching.TitleMatchesQuery cross-multiplies instead of dividing.
- Resolver.FindCanonicalIsbnWeighted: the model breaks ties between ISBNs with exactly equal scores in favour of the first to enter the score table, as `max` does. With floats, a rounding difference in a sum could separate scores the model treats as equal.
- Kennys.UnderHundredWhole: the price text is read as whole euros plus cents over 100, which is what `float(...)` gives for these digit strings.
- Blackwells.ChooseFirstResult: for the fallback, the source takes `list(seen_hrefs)[0]`, which depends on the set's hash order. The model promises only some non-empty link among the first ten. Blackwells.SearchQuery inherits this.
- Blackwells: a product page that yields no result is never skipped in the model. `_extract_from_product_page` always returns a result, so the `if result:` checks always pass.
- Kennys: the same holds for the choice loop's `if result:` check. The model picks the link first and then extracts its page.
- Pipeline.RunScrapers and Pipeline.Phase1 assume every store's scraper provides `get_search_results` and `get_product_details`. The Wordery and Libristo scrapers shown do not define them, and the base scraper shown does not declare them. Calling a missing method raises before any coroutine is awaited (cli.py:153, outside `gather`), so the exception leaves `run_scrapers` instead of filling a slot. The model does not capture this.
- `display_json` is not modelled: it formats prices through `parse_price`, which is not part of this model.
- Console rendering is not modelled (colours, column styles, the status spinner). A table row is the text it would show.
- The `search` command's argument handling is not modelled. It only chooses ISBN or title mode and the list of stores.
- `SearchResultItem` is not defined in the base scraper shown. Its fields (ISBN, URL, title) are taken from how the scrapers build it.
