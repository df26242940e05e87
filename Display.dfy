/**
 * The row rules of `display_table` and `display_csv` (src/bookscout/cli.py): what each store's
 * row says, the 50-character title cut, the CSV quote doubling and the list of prices found.
 * Rendering and printing are not modelled; a row is the text it would show.
 */
module Display {
  import opened Wrappers
  import opened Text
  import opened Models
  import opened Dedup
  import BW = Blackwells
  import KN = Kennys
  import LB = Libristo
  import WD = Wordery

  /** The stores a search can ask, with the value each has on the command line. */
  datatype Store = Blackwells | Kennys | Libristo | Wordery

  function Value(store: Store): string
  {
    match store
    case Blackwells => "blackwells"
    case Kennys => "kennys"
    case Libristo => "libristo"
    case Wordery => "wordery"
  }

  function UpperChar(c: char): char {
    if 'a' <= c <= 'z' then (c as int - 32) as char else c
  }

  /** Python's `str.capitalize`: the first character upper case, the rest lower case. */
  function Capitalize(s: string): (r: string)
    ensures |r| == |s|
    ensures |s| > 0 ==> r[0] == UpperChar(s[0]) && r[1..] == Lower(s[1..])
  {
    if |s| == 0 then "" else [UpperChar(s[0])] + Lower(s[1..])
  }

  /** The store name a row shows when the store found nothing. */
  function StoreLabel(store: Store): string
  {
    Capitalize(Value(store))
  }

  const TitleWidth: nat := 50
  const Ellipsis: string := "..."

  /** The table's title cell: titles longer than 50 characters are cut to 50 and marked "...". */
  function TableTitle(title: string): (cell: string)
    ensures |title| <= TitleWidth ==> cell == title
    ensures |title| > TitleWidth ==>
      |cell| == TitleWidth + |Ellipsis| && StartsWith(title, cell[..TitleWidth]) && EndsWith(cell, Ellipsis)
  {
    if |title| > TitleWidth then title[..TitleWidth] + Ellipsis else title
  }

  /** One table row: store, title, price, link. */
  datatype Row = Row(store: string, title: string, price: string, link: string)

  function TableRow(store: Store, result: Option<BookResult>): Row
  {
    match result
    case Some(r) => Row(r.store, TableTitle(r.title), r.price, r.url)
    case None => Row(StoreLabel(store), "-", "Not found", "-")
  }

  /**
   * The loop both displays share: one output row per `zip(stores, results)` pair, as far as both
   * sequences go.
   */
  method ZipRows<R>(stores: seq<Store>, results: seq<Option<BookResult>>, row: (Store, Option<BookResult>) -> R)
    returns (rows: seq<R>)
    ensures |rows| == if |stores| < |results| then |stores| else |results|
    ensures forall i :: 0 <= i < |rows| ==> rows[i] == row(stores[i], results[i])
  {
    rows := [];
    var i := 0;
    while i < |stores| && i < |results|
      invariant 0 <= i <= |stores| && i <= |results|
      invariant |rows| == i
      invariant forall k :: 0 <= k < i ==> rows[k] == row(stores[k], results[k])
    {
      rows := rows + [row(stores[i], results[i])];
      i := i + 1;
    }
  }

  /** The rows of `display_table`: stores and results paired up, as far as both go. */
  method TableRows(stores: seq<Store>, results: seq<Option<BookResult>>) returns (rows: seq<Row>)
    ensures |rows| == if |stores| < |results| then |stores| else |results|
    ensures forall i :: 0 <= i < |rows| ==> rows[i] == TableRow(stores[i], results[i])
  {
    rows := ZipRows(stores, results, TableRow);
  }

  /** A result that has a price. */
  function Priced(result: Option<BookResult>): Option<BookResult>
  {
    if result.Some? && result.value.price != NoPrice then result else None
  }

  /**
   * The results listed under "Prices found": the present ones whose price is not "N/A", in
   * result order, one entry per such result.
   */
  function PricesFound(results: seq<Option<BookResult>>): (found: seq<BookResult>)
    ensures found == FilterMap(results, Priced)
    ensures |found| <= |results|
    ensures forall b :: b in found <==> Some(b) in results && b.price != NoPrice
  {
    if |results| == 0 then []
    else
      var rest := PricesFound(results[1..]);
      assert results == [results[0]] + results[1..];
      FilterMapCons(results[0], results[1..], Priced);
      assert forall x :: x in results <==> x == results[0] || x in results[1..];
      if results[0].Some? && results[0].value.price != NoPrice then [results[0].value] + rest else rest
  }

  const CsvHeader: string := "store,title,price,url,isbn"

  /** A title inside CSV quotes: every `"` doubled. */
  function CsvTitle(title: string): string
  {
    Replace(title, "\"", "\"\"")
  }

  function CsvLine(store: Store, result: Option<BookResult>): string
  {
    match result
    case Some(r) =>
      r.store + ",\"" + CsvTitle(r.title) + "\",\"" + r.price + "\"," + r.url + "," + r.isbn.GetOr("")
    case None => StoreLabel(store) + ",\"\",\"Not found\",\"\",\"\""
  }

  /** The lines of `display_csv`: the header, then stores and results paired up. */
  method CsvLines(stores: seq<Store>, results: seq<Option<BookResult>>) returns (lines: seq<string>)
    ensures |lines| == 1 + if |stores| < |results| then |stores| else |results|
    ensures lines[0] == CsvHeader
    ensures forall i :: 0 <= i < |lines| - 1 ==> lines[i + 1] == CsvLine(stores[i], results[i])
  {
    var rows := ZipRows(stores, results, CsvLine);
    lines := [CsvHeader] + rows;
  }

  /**
   * Reading a quoted CSV field the way RFC 4180 (section 2) has it, from just after the opening
   * quote: a doubled quote stands for one quote and a single quote closes the field. Gives the
   * field's text and what follows the closing quote, or nothing if the field never closes.
   */
  function ReadQuoted(s: string): Option<(string, string)>
    decreases |s|
  {
    if |s| == 0 then None
    else if s[0] != '"' then
      match ReadQuoted(s[1..])
      case Some((text, rest)) => Some(([s[0]] + text, rest))
      case None => None
    else if |s| >= 2 && s[1] == '"' then
      match ReadQuoted(s[2..])
      case Some((text, rest)) => Some(("\"" + text, rest))
      case None => None
    else Some(("", s[1..]))
  }

  /** Doubling the quotes makes the title read back whole from its quoted field. */
  lemma {:induction false} CsvTitleRoundTrip(title: string, rest: string)
    requires |rest| == 0 || rest[0] != '"'
    ensures ReadQuoted(CsvTitle(title) + "\"" + rest) == Some((title, rest))
    decreases |title|
  {
    var s := CsvTitle(title) + "\"" + rest;
    if |title| == 0 {
      assert s == "\"" + rest;
    } else {
      CsvTitleRoundTrip(title[1..], rest);
      var tail := CsvTitle(title[1..]) + "\"" + rest;
      if title[0] == '"' {
        assert s == "\"\"" + tail;
        assert s[2..] == tail;
      } else {
        assert s == [title[0]] + tail;
        assert s[1..] == tail;
      }
      assert title == [title[0]] + title[1..];
    }
  }

  /** A CSV row's title field reads back as the title, and the rest of the row follows it. */
  lemma CsvLineTitle(store: Store, r: BookResult)
    ensures var line := CsvLine(store, Some(r));
            var k := |r.store| + 2;
            k <= |line| && line[..k] == r.store + ",\"" &&
            ReadQuoted(line[k..]) == Some((r.title, ",\"" + r.price + "\"," + r.url + "," + r.isbn.GetOr("")))
  {
    var rest := ",\"" + r.price + "\"," + r.url + "," + r.isbn.GetOr("");
    CsvTitleRoundTrip(r.title, rest);
    var line := CsvLine(store, Some(r));
    var head := r.store + ",\"";
    var tail := CsvTitle(r.title) + "\"" + rest;
    assert line == head + tail;
    assert |head| == |r.store| + 2;
    assert line[..|head|] == head;
    assert line[|head|..] == tail;
  }

  /** The scraper `SCRAPER_MAP` gives each store, by the name it puts on its results. */
  function ScraperName(store: Store): string
  {
    match store
    case Blackwells => BW.Name
    case Kennys => KN.Name
    case Libristo => LB.Name
    case Wordery => WD.Name
  }

  /** A "Not found" row is labelled with the same name the store's scraper gives a found row. */
  lemma StoreLabelIsScraperName(store: Store)
    ensures StoreLabel(store) == ScraperName(store)
  {
    match store
    case Blackwells => assert Value(store) == "b" + "lackwells";
    case Kennys => assert Value(store) == "k" + "ennys";
    case Libristo => assert Value(store) == "l" + "ibristo";
    case Wordery => assert Value(store) == "w" + "ordery";
  }
}
