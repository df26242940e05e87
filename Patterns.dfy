/**
 * The regular expressions the scrapers use, written out as matchers.
 *
 * Each pattern begins with a greedy run (`\d+`, `\s*`, `[:\s]*`) that is followed by a
 * character the run cannot contain, so backtracking never finds a second way to match at a
 * position: `MatchAt` gives the one match that starts at a position, `Search` is `re.search`
 * (the leftmost start) and `FindAll` is `re.findall` (a left-to-right scan that resumes after
 * each match).
 */
module Patterns {
  import opened Wrappers
  import opened Text

  const Euro: char := '\U{20AC}'
  const Pound: char := '\U{A3}'

  /** The number of digits starting at `i`: the run `\d+` takes. */
  function DigitRun(s: string, i: nat): (n: nat)
    requires i <= |s|
    ensures i + n <= |s|
    ensures forall k :: i <= k < i + n ==> IsDigit(s[k])
    ensures i + n == |s| || !IsDigit(s[i + n])
    decreases |s| - i
  {
    if i < |s| && IsDigit(s[i]) then 1 + DigitRun(s, i + 1) else 0
  }

  /** The number of whitespace characters starting at `i`: the run `\s*` takes. */
  function SpaceRun(s: string, i: nat): (n: nat)
    requires i <= |s|
    ensures i + n <= |s|
    ensures forall k :: i <= k < i + n ==> IsSpace(s[k])
    ensures i + n == |s| || !IsSpace(s[i + n])
    decreases |s| - i
  {
    if i < |s| && IsSpace(s[i]) then 1 + SpaceRun(s, i + 1) else 0
  }

  /** The number of `:` and whitespace characters starting at `i`: the run `[:\s]*` takes. */
  function LabelGapRun(s: string, i: nat): (n: nat)
    requires i <= |s|
    ensures i + n <= |s|
    ensures forall k :: i <= k < i + n ==> s[k] == ':' || IsSpace(s[k])
    ensures i + n == |s| || (s[i + n] != ':' && !IsSpace(s[i + n]))
    decreases |s| - i
  {
    if i < |s| && (s[i] == ':' || IsSpace(s[i])) then 1 + LabelGapRun(s, i + 1) else 0
  }

  /** `\d+[.,]\d{2}` at `i`: the length of the amount, if one starts there. */
  function AmountAt(s: string, i: nat): Option<nat>
    requires i <= |s|
  {
    var k := DigitRun(s, i);
    if k >= 1 && i + k + 3 <= |s| && (s[i + k] == '.' || s[i + k] == ',')
       && IsDigit(s[i + k + 1]) && IsDigit(s[i + k + 2])
    then Some(k + 3)
    else None
  }

  datatype Pattern =
    | EuroAfter     // \d+[.,]\d{2}€                     (Blackwells prices)
    | PoundBefore   // £\d+[.,]\d{2}                     (Wordery prices)
    | EuroBefore    // €\s*\d+[.,]\d{2}                  (Kennys prices)
    | EuroEither    // €\s*\d+[.,]\d{2}|\d+[.,]\d{2}\s*€  (Libristo prices)
    | IsbnLabel     // ISBN[:\s]*(\d{10,13}), ignoring case
    | IsbnDigits    // (\d{13}|\d{10})

  /** The length of the match of `p` that starts at `i`, if there is one. */
  function MatchAt(p: Pattern, s: string, i: nat): (r: Option<nat>)
    requires i <= |s|
    ensures r.Some? ==> 0 < r.value && i + r.value <= |s|
  {
    match p
    case EuroAfter => EuroAfterAt(s, i)
    case PoundBefore => PoundBeforeAt(s, i)
    case EuroBefore => EuroBeforeAt(s, i)
    case EuroEither => if EuroBeforeAt(s, i).Some? then EuroBeforeAt(s, i) else AmountEuroAt(s, i)
    case IsbnLabel => IsbnLabelAt(s, i)
    case IsbnDigits => IsbnDigitsAt(s, i)
  }

  /** `\d+[.,]\d{2}€` at `i`. */
  function EuroAfterAt(s: string, i: nat): (r: Option<nat>)
    requires i <= |s|
    ensures r.Some? ==> 0 < r.value && i + r.value <= |s| && IsDigit(s[i]) && s[i + r.value - 1] == Euro
  {
    match AmountAt(s, i)
    case Some(n) => if i + n < |s| && s[i + n] == Euro then Some(n + 1) else None
    case None => None
  }

  /** `£\d+[.,]\d{2}` at `i`. */
  function PoundBeforeAt(s: string, i: nat): (r: Option<nat>)
    requires i <= |s|
    ensures r.Some? ==> 0 < r.value && i + r.value <= |s| && s[i] == Pound && IsDigit(s[i + r.value - 1])
  {
    if i < |s| && s[i] == Pound then
      (match AmountAt(s, i + 1) case Some(n) => Some(n + 1) case None => None)
    else None
  }

  /** `€\s*\d+[.,]\d{2}` at `i`. */
  function EuroBeforeAt(s: string, i: nat): (r: Option<nat>)
    requires i <= |s|
    ensures r.Some? ==> 0 < r.value && i + r.value <= |s| && s[i] == Euro && IsDigit(s[i + r.value - 1])
  {
    if i < |s| && s[i] == Euro then
      var w := SpaceRun(s, i + 1);
      (match AmountAt(s, i + 1 + w) case Some(n) => Some(1 + w + n) case None => None)
    else None
  }

  /** `\d+[.,]\d{2}\s*€` at `i`. */
  function AmountEuroAt(s: string, i: nat): (r: Option<nat>)
    requires i <= |s|
    ensures r.Some? ==> 0 < r.value && i + r.value <= |s| && IsDigit(s[i]) && s[i + r.value - 1] == Euro
  {
    match AmountAt(s, i)
    case Some(n) =>
      var w := SpaceRun(s, i + n);
      if i + n + w < |s| && s[i + n + w] == Euro then Some(n + w + 1) else None
    case None => None
  }

  /** `ISBN[:\s]*\d{10,13}` at `i`, ignoring the case of the label. */
  function IsbnLabelAt(s: string, i: nat): (r: Option<nat>)
    requires i <= |s|
    ensures r.Some? ==> 4 < r.value && i + r.value <= |s| && LowerChar(s[i]) == 'i' && IsDigit(s[i + r.value - 1])
  {
    if i + 4 <= |s| && Lower(s[i..i + 4]) == "isbn" then
      assert LowerChar(s[i]) == Lower(s[i..i + 4])[0];
      var w := LabelGapRun(s, i + 4);
      var d := DigitRun(s, i + 4 + w);
      if d >= 10 then Some(4 + w + (if d > 13 then 13 else d)) else None
    else None
  }

  /** `\d{13}|\d{10}` at `i`: thirteen digits when there are, else ten. */
  function IsbnDigitsAt(s: string, i: nat): (r: Option<nat>)
    requires i <= |s|
    ensures r.Some? ==> (r.value == 13 || r.value == 10) && i + r.value <= |s|
    ensures r.Some? ==> forall k :: i <= k < i + r.value ==> IsDigit(s[k])
  {
    var d := DigitRun(s, i);
    if d >= 13 then Some(13) else if d >= 10 then Some(10) else None
  }

  /** The text a match captures: the digits after the label's gap for `IsbnLabel`, the whole match otherwise. */
  function Group(p: Pattern, s: string, i: nat, n: nat): string
    requires i + n <= |s|
  {
    if p == IsbnLabel && i + 4 <= i + n then
      var g := i + 4 + LabelGapRun(s, i + 4);
      if g <= i + n then s[g..i + n] else s[i..i + n]
    else s[i..i + n]
  }

  /**
   * A match table: entry `k` is the length of the match that starts at `k`, if any. Every match
   * is non-empty and ends within the text, whose length is one less than the table's.
   */
  predicate Fits(ms: seq<Option<nat>>)
  {
    |ms| > 0 && forall k :: 0 <= k < |ms| && ms[k].Some? ==> 0 < ms[k].value && k + ms[k].value < |ms|
  }

  /** The table of the matches of `p` at every position of `s`, end included. */
  function Matches(p: Pattern, s: string): (ms: seq<Option<nat>>)
    ensures |ms| == |s| + 1 && Fits(ms)
    ensures forall k :: 0 <= k <= |s| ==> ms[k] == MatchAt(p, s, k)
  {
    seq(|s| + 1, k requires 0 <= k <= |s| => MatchAt(p, s, k))
  }

  /** The leftmost position at or after `i` where the table has a match. */
  function ScanFrom(ms: seq<Option<nat>>, i: nat): (r: Option<nat>)
    requires i < |ms|
    ensures r.Some? ==> i <= r.value < |ms| && ms[r.value].Some?
    ensures forall j :: i <= j < |ms| && (r.None? || j < r.value) ==> ms[j].None?
    decreases |ms| - i
  {
    if ms[i].Some? then Some(i)
    else if i == |ms| - 1 then None
    else ScanFrom(ms, i + 1)
  }

  /** The matches of the table from position `i` on, left to right, each scan resuming after a match. */
  function CollectFrom(ms: seq<Option<nat>>, s: string, i: nat): seq<string>
    requires Fits(ms) && |ms| == |s| + 1 && i <= |s|
    decreases |s| - i
  {
    if i == |s| then []
    else
      match ms[i]
      case Some(n) => [s[i..i + n]] + CollectFrom(ms, s, i + n)
      case None => CollectFrom(ms, s, i + 1)
  }

  /** The collected matches are empty exactly when the scan finds none. */
  lemma {:induction false} CollectEmpty(ms: seq<Option<nat>>, s: string, i: nat)
    requires Fits(ms) && |ms| == |s| + 1 && i <= |s|
    ensures CollectFrom(ms, s, i) != [] <==> ScanFrom(ms, i).Some?
    decreases |s| - i
  {
    if i < |s| && ms[i].None? {
      CollectEmpty(ms, s, i + 1);
    }
  }

  /** The first collected match is the one the scan finds. */
  lemma {:induction false} CollectHead(ms: seq<Option<nat>>, s: string, i: nat)
    requires Fits(ms) && |ms| == |s| + 1 && i <= |s| && ScanFrom(ms, i).Some?
    ensures var j := ScanFrom(ms, i).value;
      CollectFrom(ms, s, i) != [] && CollectFrom(ms, s, i)[0] == s[j..j + ms[j].value]
    decreases |s| - i
  {
    if ms[i].None? {
      CollectHead(ms, s, i + 1);
    }
  }

  /** When no match starts or ends with white space, no collected match does. */
  lemma {:induction false} CollectUnpadded(ms: seq<Option<nat>>, s: string, i: nat)
    requires Fits(ms) && |ms| == |s| + 1 && i <= |s|
    requires forall k :: 0 <= k < |s| && ms[k].Some? ==> !IsSpace(s[k]) && !IsSpace(s[k + ms[k].value - 1])
    ensures forall m :: m in CollectFrom(ms, s, i) ==> Unpadded(m)
    decreases |s| - i
  {
    if i < |s| {
      match ms[i]
      case Some(n) =>
        var head := s[i..i + n];
        assert head[0] == s[i] && head[n - 1] == s[i + n - 1];
        CollectUnpadded(ms, s, i + n);
        assert CollectFrom(ms, s, i) == [head] + CollectFrom(ms, s, i + n);
      case None =>
        CollectUnpadded(ms, s, i + 1);
    }
  }

  /** The leftmost position at or after `i` where `p` matches. */
  function SearchFrom(p: Pattern, s: string, i: nat): (r: Option<nat>)
    requires i <= |s|
    ensures r.Some? ==> i <= r.value <= |s| && MatchAt(p, s, r.value).Some?
    ensures forall j :: i <= j <= |s| && (r.None? || j < r.value) ==> MatchAt(p, s, j).None?
  {
    var ms := Matches(p, s);
    var r := ScanFrom(ms, i);
    assert forall j :: i <= j <= |s| && (r.None? || j < r.value) ==> ms[j].None?;
    r
  }

  /** `re.search(p, s)`, giving the captured text of the leftmost match. */
  function Search(p: Pattern, s: string): Option<string>
  {
    match SearchFrom(p, s, 0)
    case Some(i) => Some(Group(p, s, i, MatchAt(p, s, i).value))
    case None => None
  }

  /** `re.findall(p, s)` from position `i` on, for the patterns without a capture group. */
  function FindAllFrom(p: Pattern, s: string, i: nat): seq<string>
    requires i <= |s|
  {
    CollectFrom(Matches(p, s), s, i)
  }

  function FindAll(p: Pattern, s: string): seq<string>
  {
    FindAllFrom(p, s, 0)
  }

  /** The first element of `findall` is the leftmost match, and `findall` is empty exactly when `search` fails. */
  lemma FindAllStartsWithSearch(p: Pattern, s: string)
    requires p != IsbnLabel
    ensures FindAll(p, s) != [] <==> Search(p, s).Some?
    ensures FindAll(p, s) != [] ==> FindAll(p, s)[0] == Search(p, s).value
  {
    var ms := Matches(p, s);
    CollectEmpty(ms, s, 0);
    if ScanFrom(ms, 0).Some? {
      CollectHead(ms, s, 0);
    }
  }

  /** No match starts or ends with whitespace. */
  lemma MatchUnpadded(p: Pattern, s: string, i: nat)
    requires i <= |s| && MatchAt(p, s, i).Some?
    ensures !IsSpace(s[i]) && !IsSpace(s[i + MatchAt(p, s, i).value - 1])
  {
    match p
    case EuroEither =>
      if EuroBeforeAt(s, i).None? {
        assert MatchAt(p, s, i) == AmountEuroAt(s, i);
      }
    case _ =>
  }

  predicate Unpadded(m: string) {
    |m| > 0 && !IsSpace(m[0]) && !IsSpace(m[|m| - 1])
  }

  /** Every element `findall` returns is unpadded, so `strip` leaves it alone. */
  lemma FindAllFromUnpadded(p: Pattern, s: string, i: nat)
    requires i <= |s|
    ensures forall m :: m in FindAllFrom(p, s, i) ==> Unpadded(m)
  {
    var ms := Matches(p, s);
    forall k | 0 <= k < |s| && ms[k].Some?
      ensures !IsSpace(s[k]) && !IsSpace(s[k + ms[k].value - 1])
    {
      MatchUnpadded(p, s, k);
    }
    CollectUnpadded(ms, s, i);
  }

  /** A run of digits that ends before `hi` is the same run in the slice `s[lo..hi]`. */
  lemma {:induction false} DigitRunSlice(s: string, lo: nat, hi: nat, i: nat)
    requires lo <= i <= hi <= |s| && i + DigitRun(s, i) < hi
    ensures DigitRun(s[lo..hi], i - lo) == DigitRun(s, i)
    decreases |s| - i
  {
    if IsDigit(s[i]) {
      DigitRunSlice(s, lo, hi, i + 1);
    }
  }

  /** What `\d+[.,]\d{2}€` matches in a text, it matches whole when cut out of the text. */
  lemma EuroAfterAlone(s: string, i: nat)
    requires i <= |s| && MatchAt(EuroAfter, s, i).Some?
    ensures MatchAt(EuroAfter, s[i..i + MatchAt(EuroAfter, s, i).value], 0) == MatchAt(EuroAfter, s, i)
  {
    var n := MatchAt(EuroAfter, s, i).value;
    var k := DigitRun(s, i);
    var t := s[i..i + n];
    assert n == k + 4;
    DigitRunSlice(s, i, i + n, i);
    assert DigitRun(t, 0) == k;
    assert t[k] == s[i + k] && t[k + 1] == s[i + k + 1] && t[k + 2] == s[i + k + 2] && t[k + 3] == s[i + k + 3];
  }

  /** The price `re.search(r"(\d+[.,]\d{2}€)", s)` finds is itself a whole match of the pattern. */
  lemma SearchEuroAfter(s: string)
    requires Search(EuroAfter, s).Some?
    ensures MatchAt(EuroAfter, Search(EuroAfter, s).value, 0) == Some(|Search(EuroAfter, s).value|)
  {
    var i := SearchFrom(EuroAfter, s, 0).value;
    EuroAfterAlone(s, i);
  }

  /** The digits an ISBN label match at `i` captures. */
  lemma IsbnLabelGroup(s: string, i: nat)
    requires i <= |s| && IsbnLabelAt(s, i).Some?
    ensures var g := Group(IsbnLabel, s, i, IsbnLabelAt(s, i).value);
      10 <= |g| <= 13 && IsDigits(g)
  {
    var n := IsbnLabelAt(s, i).value;
    var w := LabelGapRun(s, i + 4);
    var d := DigitRun(s, i + 4 + w);
    var m := if d > 13 then 13 else d;
    assert n == 4 + w + m;
    var g := s[i + 4 + w..i + n];
    assert Group(IsbnLabel, s, i, n) == g;
    assert forall k :: 0 <= k < |g| ==> g[k] == s[i + 4 + w + k];
  }

  /** The ISBN `re.search(r"ISBN[:\s]*(\d{10,13})", s, re.IGNORECASE)` captures is 10 to 13 digits. */
  lemma SearchIsbnLabel(s: string)
    requires Search(IsbnLabel, s).Some?
    ensures 10 <= |Search(IsbnLabel, s).value| <= 13 && IsDigits(Search(IsbnLabel, s).value)
  {
    var i := SearchFrom(IsbnLabel, s, 0).value;
    IsbnLabelGroup(s, i);
  }

  /** The ISBN `(\d{13}|\d{10})` finds is ten or thirteen digits read from the text. */
  lemma SearchIsbnDigits(s: string)
    requires Search(IsbnDigits, s).Some?
    ensures var v := Search(IsbnDigits, s).value;
      (|v| == 13 || |v| == 10) && IsDigits(v) && exists i :: 0 <= i <= |s| && StartsWith(s[i..], v)
  {
    var i := SearchFrom(IsbnDigits, s, 0).value;
    var n := MatchAt(IsbnDigits, s, i).value;
    var v := s[i..i + n];
    assert Search(IsbnDigits, s).value == v;
    assert forall k :: 0 <= k < n ==> v[k] == s[i + k];
    assert s[i..][..n] == v;
  }
}
