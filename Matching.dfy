/** `title_matches_query` (src/bookscout/scrapers/base.py): the share of query words found in a title. */
module Matching {
  import opened Text

  /** The threshold the scrapers use. */
  const DefaultThreshold: real := 0.5

  /** The number of word characters at the start of `s`. */
  function WordRun(s: string): (n: nat)
    ensures n <= |s|
    ensures forall k :: 0 <= k < n ==> IsWordChar(s[k])
    ensures n == |s| || !IsWordChar(s[n])
    decreases |s|
  {
    if |s| > 0 && IsWordChar(s[0]) then 1 + WordRun(s[1..]) else 0
  }

  /** `re.findall(r"\w+", s)`: the maximal runs of word characters, left to right. */
  function Words(s: string): seq<string>
    decreases |s|
  {
    if |s| == 0 then []
    else if !IsWordChar(s[0]) then Words(s[1..])
    else
      var n := WordRun(s);
      [s[..n]] + Words(s[n..])
  }

  /** The set of lower-cased words of `s`. */
  function WordSet(s: string): set<string>
  {
    set w | w in Words(Lower(s))
  }

  /**
   * True when the query has no words, and otherwise exactly when at least `threshold` of the
   * query's distinct words occur among the title's words.
   */
  function TitleMatchesQuery(title: string, query: string, threshold: real): (r: bool)
    ensures WordSet(query) == {} ==> r
    ensures WordSet(query) != {} ==>
      (r <==> |WordSet(query) * WordSet(title)| as real >= threshold * |WordSet(query)| as real)
  {
    var queryWords := WordSet(query);
    var titleWords := WordSet(title);
    if queryWords == {} then true
    else
      RatioAtLeast(|queryWords * titleWords|, |queryWords|, threshold);
      (|queryWords * titleWords| as real) / (|queryWords| as real) >= threshold
  }

  lemma RatioAtLeast(a: nat, b: nat, t: real)
    requires b > 0
    ensures (a as real) / (b as real) >= t <==> a as real >= t * b as real
  {
    var q := (a as real) / (b as real);
    assert q * (b as real) == a as real;
    if q >= t {
      assert q * (b as real) >= t * (b as real);
    } else {
      assert q * (b as real) < t * (b as real);
    }
  }

  /** A character that is not a word character separates the words on its two sides. */
  lemma {:induction false} WordsSplitAt(a: string, c: char, b: string)
    requires !IsWordChar(c)
    ensures Words(a + [c] + b) == Words(a) + Words(b)
    decreases |a|
  {
    var s := a + [c] + b;
    if |a| == 0 {
      assert s[1..] == b;
    } else if !IsWordChar(a[0]) {
      assert s[1..] == a[1..] + [c] + b;
      WordsSplitAt(a[1..], c, b);
    } else {
      var n := WordRun(a);
      WordRunPrefix(a, [c] + b);
      assert s == a + ([c] + b);
      assert s[..n] == a[..n];
      assert s[n..] == a[n..] + [c] + b;
      WordsSplitAt(a[n..], c, b);
    }
  }

  lemma {:induction false} WordRunPrefix(a: string, rest: string)
    requires |rest| > 0 && !IsWordChar(rest[0])
    ensures WordRun(a + rest) == WordRun(a)
    decreases |a|
  {
    if |a| > 0 && IsWordChar(a[0]) {
      assert (a + rest)[1..] == a[1..] + rest;
      WordRunPrefix(a[1..], rest);
    } else if |a| == 0 {
      assert (a + rest)[0] == rest[0];
    }
  }

  lemma LowerWordChar(x: char)
    ensures IsWordChar(LowerChar(x)) == IsWordChar(x)
  {
  }

  /** Changing the letter case of either argument does not change the answer. */
  lemma CaseInsensitive(title: string, title': string, query: string, query': string, threshold: real)
    requires Lower(title) == Lower(title') && Lower(query) == Lower(query')
    ensures TitleMatchesQuery(title, query, threshold) == TitleMatchesQuery(title', query', threshold)
  {
  }

  /** A lower threshold accepts everything a higher one accepts. */
  lemma ThresholdMonotone(title: string, query: string, t: real, t': real)
    requires t' <= t && TitleMatchesQuery(title, query, t)
    ensures TitleMatchesQuery(title, query, t')
  {
    var q := WordSet(query);
    if q != {} {
      assert t' * |q| as real <= t * |q| as real;
    }
  }

  /** Any text matches itself at any threshold of at most one. */
  lemma MatchesItself(s: string, threshold: real)
    requires threshold <= 1.0
    ensures TitleMatchesQuery(s, s, threshold)
  {
    var q := WordSet(s);
    assert q * q == q;
  }

  /** A title with more words matches whatever a title with fewer words matched. */
  lemma MoreTitleWords(title: string, title': string, query: string, threshold: real)
    requires WordSet(title) <= WordSet(title')
    requires TitleMatchesQuery(title, query, threshold)
    ensures TitleMatchesQuery(title', query, threshold)
  {
    var q := WordSet(query);
    SubsetCard(q * WordSet(title), q * WordSet(title'));
  }

  lemma {:induction false} SubsetCard(a: set<string>, b: set<string>)
    requires a <= b
    ensures |a| <= |b|
    decreases |a|
  {
    if a != {} {
      var x :| x in a;
      SubsetCard(a - {x}, b - {x});
    }
  }

  /** Appending words to a title, after a separator, never turns a match into a miss. */
  lemma AppendedWordsKeepMatch(title: string, sep: char, extra: string, query: string, threshold: real)
    requires !IsWordChar(sep)
    requires TitleMatchesQuery(title, query, threshold)
    ensures TitleMatchesQuery(title + [sep] + extra, query, threshold)
  {
    LowerAppend(title + [sep], extra);
    LowerAppend(title, [sep]);
    assert Lower([sep]) == [LowerChar(sep)];
    WordsSplitAt(Lower(title), LowerChar(sep), Lower(extra));
    MoreTitleWords(title, title + [sep] + extra, query, threshold);
  }

  /** A run of word characters is a single word. */
  lemma SingleWord(s: string)
    requires |s| > 0 && forall k :: 0 <= k < |s| ==> IsWordChar(s[k])
    ensures Words(s) == [s]
  {
    var n := WordRun(s);
    assert n == |s|;
    assert IsWordChar(s[0]);
    assert Words(s[n..]) == [];
    assert s[..n] == s;
    assert Words(s) == [s[..n]] + Words(s[n..]);
  }

  /**
   * Two runs of word characters joined by any other character, as in "Data-Intensive",
   * supply two lower-cased words.
   */
  lemma SeparatorSplitsWords(a: string, c: char, b: string)
    requires |a| > 0 && forall k :: 0 <= k < |a| ==> IsWordChar(a[k])
    requires |b| > 0 && forall k :: 0 <= k < |b| ==> IsWordChar(b[k])
    requires !IsWordChar(c)
    ensures WordSet(a + [c] + b) == {Lower(a), Lower(b)}
  {
    LowerAppend(a + [c], b);
    LowerAppend(a, [c]);
    assert Lower([c]) == [c];
    var la, lb := Lower(a), Lower(b);
    assert Lower(a + [c] + b) == la + [c] + lb;
    WordsSplitAt(la, c, lb);
    forall k | 0 <= k < |la| ensures IsWordChar(la[k]) {
      LowerWordChar(a[k]);
    }
    forall k | 0 <= k < |lb| ensures IsWordChar(lb[k]) {
      LowerWordChar(b[k]);
    }
    SingleWord(la);
    SingleWord(lb);
    var ws := Words(la + [c] + lb);
    assert ws == [la, lb];
    assert WordSet(a + [c] + b) == set w | w in ws;
  }
}
