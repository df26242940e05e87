/**
 * Choosing the canonical ISBN from the stores' search results
 * (`find_canonical_isbn_weighted`, `find_canonical_isbn`, `find_canonical_isbn_from_results`).
 *
 * Scores are exact rationals: each is a sum of `1/p` times a multiplier, so the model uses
 * `real` where the program uses floating point.
 */
module Resolver {
  import opened Wrappers
  import opened Text
  import opened Models
  import opened Dedup

  /** The default multiplier for ISBN-13s in the 979-8 registration range. */
  const DefaultPenalty: real := 0.3
  const SelfPublishedPrefix: string := "9798"

  /** The ISBN an item votes for: an item whose ISBN is missing or empty votes for nothing. */
  function Vote(item: SearchResultItem): Option<string> {
    if item.isbn.Some? && item.isbn.value != "" then item.isbn else None
  }

  /** The ISBNs one store's items vote for, in order, repeats included. */
  function VoteSeq(items: seq<SearchResultItem>): seq<string>
  {
    if |items| == 0 then []
    else
      var last := Vote(items[|items| - 1]);
      VoteSeq(items[..|items| - 1]) + (if last.Some? then [last.value] else [])
  }

  /** Every store's votes, one store after another: the order the scoring loop meets them in. */
  function AllVotes(stores: seq<seq<SearchResultItem>>): seq<string>
  {
    if |stores| == 0 then []
    else AllVotes(stores[..|stores| - 1]) + VoteSeq(stores[|stores| - 1])
  }

  function StoreVotes(items: seq<SearchResultItem>): set<string>
  {
    set k | k in VoteSeq(items)
  }

  /** The ISBNs any store votes for. */
  function Candidates(stores: seq<seq<SearchResultItem>>): set<string>
  {
    set k | k in AllVotes(stores)
  }

  function Ident(k: string): string { k }

  /** The order in which ISBNs first enter the score table (a dictionary keeps insertion order). */
  function Order(stores: seq<seq<SearchResultItem>>): seq<string>
  {
    FirstByKey(AllVotes(stores), Ident)
  }

  /** The 0-based index of the first item of a store that votes for `isbn`. */
  function FirstIndex(items: seq<SearchResultItem>, isbn: string): Option<nat>
  {
    if |items| == 0 then None
    else
      match FirstIndex(items[..|items| - 1], isbn)
      case Some(i) => Some(i)
      case None => if Vote(items[|items| - 1]) == Some(isbn) then Some(|items| - 1) else None
  }

  /** What one store adds to an ISBN's score: `1/p` for the first 1-based position `p` voting for it. */
  function StoreScore(items: seq<SearchResultItem>, isbn: string): real
  {
    match FirstIndex(items, isbn)
    case Some(i) => 1.0 / ((i + 1) as real)
    case None => 0.0
  }

  /** The score before the penalty: the sum of the stores' contributions. */
  function RawScore(stores: seq<seq<SearchResultItem>>, isbn: string): real
  {
    if |stores| == 0 then 0.0
    else RawScore(stores[..|stores| - 1], isbn) + StoreScore(stores[|stores| - 1], isbn)
  }

  /** The penalty applies to ISBNs starting "9798", and only when the multiplier is below one. */
  predicate Penalized(isbn: string, penalty: real) {
    penalty < 1.0 && StartsWith(isbn, SelfPublishedPrefix)
  }

  function FinalScore(stores: seq<seq<SearchResultItem>>, penalty: real, isbn: string): real
  {
    if Penalized(isbn, penalty) then RawScore(stores, isbn) * penalty else RawScore(stores, isbn)
  }

  /**
   * `order[m]` has the highest final score in `order`, and every entry before it scores less:
   * it is what `max` returns when it walks `order` and replaces its pick only on a strictly
   * higher score.
   */
  predicate FirstMaximal(stores: seq<seq<SearchResultItem>>, penalty: real, order: seq<string>, m: nat)
    requires m < |order|
  {
    && (forall j :: 0 <= j < |order| ==> FinalScore(stores, penalty, order[j]) <= FinalScore(stores, penalty, order[m]))
    && (forall j :: 0 <= j < m ==> FinalScore(stores, penalty, order[j]) < FinalScore(stores, penalty, order[m]))
  }

  /**
   * What the weighted resolver returns: nothing exactly when no item of any store carries an
   * ISBN, and otherwise the ISBN with the highest final score, the earliest to enter the score
   * table among equals.
   */
  predicate IsCanonical(stores: seq<seq<SearchResultItem>>, penalty: real, r: Option<string>)
  {
    && (r.None? <==> Candidates(stores) == {})
    && (r.Some? ==>
          exists m :: 0 <= m < |Order(stores)| && Order(stores)[m] == r.value && FirstMaximal(stores, penalty, Order(stores), m))
  }

  /** `find_canonical_isbn_weighted`: score each ISBN by its positions, penalise, take a maximum. */
  method FindCanonicalIsbnWeighted(stores: seq<seq<SearchResultItem>>, penalty: real) returns (r: Option<string>)
    ensures IsCanonical(stores, penalty, r)
  {
    // A dictionary: its values and its keys in insertion order.
    var scores: map<string, real> := map[];
    var order: seq<string> := [];
    var i := 0;
    while i < |stores|
      invariant 0 <= i <= |stores|
      invariant order == Order(stores[..i])
      invariant scores.Keys == Candidates(stores[..i])
      invariant forall k :: k in scores ==> scores[k] == RawScore(stores[..i], k)
    {
      scores, order := AddStore(stores[..i], scores, order, stores[i]);
      StoreAdded(stores[..i], stores[i]);
      assert stores[..i + 1] == stores[..i] + [stores[i]];
      i := i + 1;
    }
    assert stores[..i] == stores;
    OrderFacts(stores);
    if |scores| == 0 {
      assert scores.Keys == {};
      return None;
    }
    if penalty < 1.0 {
      scores := Penalise(stores, penalty, scores, order);
    }
    assert forall k :: k in scores ==> scores[k] == FinalScore(stores, penalty, k);
    assert order[0] in scores;
    var best, m := ArgMax(scores, order);
    MaxIsCanonical(stores, penalty, scores, m);
    r := Some(best);
  }

  /** The first maximal key of the final score table is the canonical ISBN. */
  lemma MaxIsCanonical(stores: seq<seq<SearchResultItem>>, penalty: real, scores: map<string, real>, m: nat)
    requires m < |Order(stores)|
    requires forall k :: k in Order(stores) ==> k in scores && scores[k] == FinalScore(stores, penalty, k)
    requires forall j :: 0 <= j < |Order(stores)| ==> scores[Order(stores)[j]] <= scores[Order(stores)[m]]
    requires forall j :: 0 <= j < m ==> scores[Order(stores)[j]] < scores[Order(stores)[m]]
    ensures IsCanonical(stores, penalty, Some(Order(stores)[m]))
  {
    OrderFacts(stores);
    assert Order(stores)[m] in Candidates(stores);
    assert FirstMaximal(stores, penalty, Order(stores), m);
  }

  /** The inner loop: one store's results add `1/p` for each ISBN at its first position `p`. */
  method AddStore(done: seq<seq<SearchResultItem>>, scores: map<string, real>, order: seq<string>,
                  results: seq<SearchResultItem>)
    returns (scores': map<string, real>, order': seq<string>)
    requires order == Order(done)
    requires scores.Keys == Candidates(done)
    requires forall k :: k in scores ==> scores[k] == RawScore(done, k)
    ensures order' == FirstByKey(AllVotes(done) + VoteSeq(results), Ident)
    ensures scores'.Keys == Candidates(done) + StoreVotes(results)
    ensures forall k :: k in scores' ==> scores'[k] == RawScore(done, k) + StoreScore(results, k)
  {
    scores', order' := scores, order;
    var seen: set<string> := {};
    var j := 0;
    assert AllVotes(done) + VoteSeq(results[..0]) == AllVotes(done);
    while j < |results|
      invariant 0 <= j <= |results|
      invariant seen == StoreVotes(results[..j])
      invariant order' == FirstByKey(AllVotes(done) + VoteSeq(results[..j]), Ident)
      invariant scores'.Keys == Candidates(done) + seen
      invariant forall k :: k in scores' ==> scores'[k] == RawScore(done, k) + StoreScore(results[..j], k)
    {
      scores', order', seen := AddItem(done, results[..j], results[j], scores', order', seen);
      assert results[..j + 1] == results[..j] + [results[j]];
      j := j + 1;
    }
    assert results[..j] == results;
  }

  /** One pass of the inner loop body, for the item after `items`. */
  method AddItem(done: seq<seq<SearchResultItem>>, items: seq<SearchResultItem>, item: SearchResultItem,
                 scores: map<string, real>, order: seq<string>, seen: set<string>)
    returns (scores': map<string, real>, order': seq<string>, seen': set<string>)
    requires seen == StoreVotes(items)
    requires order == FirstByKey(AllVotes(done) + VoteSeq(items), Ident)
    requires scores.Keys == Candidates(done) + seen
    requires forall k :: k in scores ==> scores[k] == RawScore(done, k) + StoreScore(items, k)
    ensures seen' == StoreVotes(items + [item])
    ensures order' == FirstByKey(AllVotes(done) + VoteSeq(items + [item]), Ident)
    ensures scores'.Keys == Candidates(done) + seen'
    ensures forall k :: k in scores' ==> scores'[k] == RawScore(done, k) + StoreScore(items + [item], k)
  {
    ItemStep(done, items, item);
    scores', order', seen' := scores, order, seen;
    if item.isbn.Some? && item.isbn.value != "" && item.isbn.value !in seen {
      var isbn := item.isbn.value;
      seen' := seen + {isbn};
      var prior := 0.0;
      if isbn in scores {
        prior := scores[isbn];
      } else {
        RawScoreOutside(done, isbn);
        order' := order + [isbn];
      }
      VotesHaveIndex(items, isbn);
      scores' := scores[isbn := prior + 1.0 / ((|items| + 1) as real)];
    }
  }

  /** Multiplies the score of every ISBN starting "9798" by the penalty, walking the keys in order. */
  method Penalise(stores: seq<seq<SearchResultItem>>, penalty: real, scores: map<string, real>, order: seq<string>)
    returns (scores': map<string, real>)
    requires penalty < 1.0
    requires forall k :: k in scores <==> k in order
    requires forall a, b :: 0 <= a < b < |order| ==> order[a] != order[b]
    requires forall k :: k in scores ==> scores[k] == RawScore(stores, k)
    ensures scores'.Keys == scores.Keys
    ensures forall k :: k in scores' ==> scores'[k] == FinalScore(stores, penalty, k)
  {
    scores' := scores;
    for t := 0 to |order|
      invariant scores'.Keys == scores.Keys
      invariant forall k :: k in scores' ==>
        scores'[k] == if k in order[..t] then FinalScore(stores, penalty, k) else RawScore(stores, k)
    {
      assert order[t] !in order[..t];
      scores' := PenaliseKey(stores, penalty, scores', order[..t], order[t]);
      assert order[..t + 1] == order[..t] + [order[t]];
    }
    assert order[..|order|] == order;
  }

  /** The loop body of `Penalise`: the key after `done` gets its final score, the others keep theirs. */
  method PenaliseKey(stores: seq<seq<SearchResultItem>>, penalty: real, scores: map<string, real>,
                     done: seq<string>, k: string)
    returns (scores': map<string, real>)
    requires penalty < 1.0 && k in scores && k !in done
    requires forall k' :: k' in scores ==>
      scores[k'] == if k' in done then FinalScore(stores, penalty, k') else RawScore(stores, k')
    ensures scores'.Keys == scores.Keys
    ensures forall k' :: k' in scores' ==>
      scores'[k'] == if k' in done + [k] then FinalScore(stores, penalty, k') else RawScore(stores, k')
  {
    scores' := scores;
    if StartsWith(k, SelfPublishedPrefix) {
      scores' := scores[k := scores[k] * penalty];
    }
  }

  /** `max(scores, key=scores.get)`: the first key in order whose value no other key exceeds. */
  method ArgMax(scores: map<string, real>, order: seq<string>) returns (best: string, ghost m: nat)
    requires |order| > 0
    requires forall k :: k in order ==> k in scores
    ensures m < |order| && order[m] == best
    ensures forall j :: 0 <= j < |order| ==> scores[order[j]] <= scores[best]
    ensures forall j :: 0 <= j < m ==> scores[order[j]] < scores[best]
  {
    best, m := order[0], 0;
    for t := 1 to |order|
      invariant m < t && order[m] == best
      invariant forall j :: 0 <= j < t ==> scores[order[j]] <= scores[best]
      invariant forall j :: 0 <= j < m ==> scores[order[j]] < scores[best]
    {
      if scores[order[t]] > scores[best] {
        best, m := order[t], t;
      }
    }
  }

  /** One loop step: how an item changes a store's votes and scores. */
  lemma StoreStep(items: seq<SearchResultItem>, item: SearchResultItem)
    ensures StoreVotes(items + [item]) == StoreVotes(items) + (if Vote(item).Some? then {Vote(item).value} else {})
    ensures forall k ::
              StoreScore(items + [item], k) ==
              if Vote(item) == Some(k) && k !in StoreVotes(items) then 1.0 / ((|items| + 1) as real)
              else StoreScore(items, k)
  {
    assert (items + [item])[..|items|] == items;
    forall k ensures FirstIndex(items, k).Some? <==> k in StoreVotes(items) {
      VotesHaveIndex(items, k);
    }
  }

  /** A store votes for an ISBN exactly when some item of it carries that ISBN first somewhere. */
  lemma {:induction false} VotesHaveIndex(items: seq<SearchResultItem>, isbn: string)
    ensures FirstIndex(items, isbn).Some? <==> isbn in StoreVotes(items)
    decreases |items|
  {
    if |items| > 0 {
      VotesHaveIndex(items[..|items| - 1], isbn);
    }
  }

  /** An ISBN no store votes for scores nothing. */
  lemma {:induction false} RawScoreOutside(stores: seq<seq<SearchResultItem>>, isbn: string)
    requires isbn !in Candidates(stores)
    ensures RawScore(stores, isbn) == 0.0
    decreases |stores|
  {
    if |stores| > 0 {
      RawScoreOutside(stores[..|stores| - 1], isbn);
      VotesHaveIndex(stores[|stores| - 1], isbn);
    }
  }

  lemma KeySetIdent(xs: seq<string>)
    ensures forall k :: k in KeySet(xs, Ident) <==> k in xs
  {
    forall k | k in xs ensures k in KeySet(xs, Ident) {
      var i :| 0 <= i < |xs| && xs[i] == k;
      assert Ident(xs[i]) == k;
    }
  }

  /** Appending an ISBN to the votes appends it to the insertion order exactly when it is new. */
  lemma OrderStep(prev: seq<string>, k: string)
    ensures FirstByKey(prev + [k], Ident)
         == if k in prev then FirstByKey(prev, Ident) else FirstByKey(prev, Ident) + [k]
  {
    FirstByKeyStep(prev, k, Ident);
    FirstByKeyFacts(prev, Ident);
    KeySetIdent(prev);
    KeySetIdent(FirstByKey(prev, Ident));
  }

  /** The insertion order lists every candidate once. */
  lemma OrderFacts(stores: seq<seq<SearchResultItem>>)
    ensures forall k :: k in Order(stores) <==> k in Candidates(stores)
    ensures forall a, b :: 0 <= a < b < |Order(stores)| ==> Order(stores)[a] != Order(stores)[b]
  {
    FirstByKeyFacts(AllVotes(stores), Ident);
    KeySetIdent(AllVotes(stores));
    KeySetIdent(Order(stores));
  }

  /** What one item does to the votes seen so far, to the insertion order and to the store's scores. */
  lemma ItemStep(done: seq<seq<SearchResultItem>>, items: seq<SearchResultItem>, item: SearchResultItem)
    ensures StoreVotes(items + [item]) == StoreVotes(items) + (if Vote(item).Some? then {Vote(item).value} else {})
    ensures FirstByKey(AllVotes(done) + VoteSeq(items + [item]), Ident)
         == if Vote(item).Some? && Vote(item).value !in Candidates(done) + StoreVotes(items)
            then FirstByKey(AllVotes(done) + VoteSeq(items), Ident) + [Vote(item).value]
            else FirstByKey(AllVotes(done) + VoteSeq(items), Ident)
    ensures forall k ::
              StoreScore(items + [item], k) ==
              if Vote(item) == Some(k) && k !in StoreVotes(items) then 1.0 / ((|items| + 1) as real)
              else StoreScore(items, k)
  {
    StoreStep(items, item);
    var prev := AllVotes(done) + VoteSeq(items);
    assert (items + [item])[..|items|] == items;
    if Vote(item).Some? {
      OrderStep(prev, Vote(item).value);
      assert AllVotes(done) + VoteSeq(items + [item]) == prev + [Vote(item).value];
    } else {
      assert AllVotes(done) + VoteSeq(items + [item]) == prev;
    }
  }

  /** What one more store adds to the votes, the candidates and the raw scores. */
  lemma StoreAdded(done: seq<seq<SearchResultItem>>, results: seq<SearchResultItem>)
    ensures AllVotes(done + [results]) == AllVotes(done) + VoteSeq(results)
    ensures Candidates(done + [results]) == Candidates(done) + StoreVotes(results)
    ensures forall k :: RawScore(done + [results], k) == RawScore(done, k) + StoreScore(results, k)
  {
    assert (done + [results])[..|done|] == done;
  }

  // Properties of the score

  /** `FirstIndex` finds the first item voting for an ISBN, and finds nothing when none does. */
  lemma {:induction false} FirstIndexFound(items: seq<SearchResultItem>, isbn: string)
    ensures FirstIndex(items, isbn).Some? ==>
      var i := FirstIndex(items, isbn).value;
      i < |items| && Vote(items[i]) == Some(isbn) && forall j :: 0 <= j < i ==> Vote(items[j]) != Some(isbn)
    ensures FirstIndex(items, isbn).None? ==> forall j :: 0 <= j < |items| ==> Vote(items[j]) != Some(isbn)
    decreases |items|
  {
    if |items| > 0 {
      FirstIndexFound(items[..|items| - 1], isbn);
    }
  }

  lemma FirstIndexIsFirst(items: seq<SearchResultItem>, isbn: string, i: nat)
    ensures FirstIndex(items, isbn) == Some(i) <==>
      i < |items| && Vote(items[i]) == Some(isbn) && forall j :: 0 <= j < i ==> Vote(items[j]) != Some(isbn)
  {
    FirstIndexFound(items, isbn);
  }

  /** An ISBN first voted for at 0-based index `i` gets `1/(i+1)`: items without an ISBN still count as positions. */
  lemma StoreScoreAt(items: seq<SearchResultItem>, isbn: string, i: nat)
    requires i < |items| && Vote(items[i]) == Some(isbn)
    requires forall j :: 0 <= j < i ==> Vote(items[j]) != Some(isbn)
    ensures StoreScore(items, isbn) == 1.0 / ((i + 1) as real)
  {
    FirstIndexIsFirst(items, isbn, i);
  }

  /** Once a store has voted for an ISBN, further votes for it in that store add nothing. */
  lemma {:induction false} LaterRepeatsAddNothing(items: seq<SearchResultItem>, later: seq<SearchResultItem>, isbn: string)
    requires isbn in StoreVotes(items)
    ensures StoreScore(items + later, isbn) == StoreScore(items, isbn)
    decreases |later|
  {
    if |later| == 0 {
      assert items + later == items;
    } else {
      var init := later[..|later| - 1];
      LaterRepeatsAddNothing(items, init, isbn);
      VotesHaveIndex(items, isbn);
      VotesHaveIndex(items + init, isbn);
      FirstIndexPrefix(items, init, isbn);
      assert items + later == (items + init) + [later[|later| - 1]];
      StoreStep(items + init, later[|later| - 1]);
    }
  }

  /** A first index found in a prefix is the first index of the whole list. */
  lemma {:induction false} FirstIndexPrefix(items: seq<SearchResultItem>, later: seq<SearchResultItem>, isbn: string)
    requires FirstIndex(items, isbn).Some?
    ensures FirstIndex(items + later, isbn) == FirstIndex(items, isbn)
    decreases |later|
  {
    if |later| == 0 {
      assert items + later == items;
    } else {
      var init := later[..|later| - 1];
      FirstIndexPrefix(items, init, isbn);
      assert (items + later)[..|items + later| - 1] == items + init;
    }
  }

  /** A store gives an ISBN between nothing and one, and something exactly when it votes for it. */
  lemma StoreScoreRange(items: seq<SearchResultItem>, isbn: string)
    ensures 0.0 <= StoreScore(items, isbn) <= 1.0
    ensures StoreScore(items, isbn) > 0.0 <==> isbn in StoreVotes(items)
  {
    VotesHaveIndex(items, isbn);
  }

  /** A canonical ISBN is a candidate no other candidate outscores. */
  lemma CanonicalIsMaximal(stores: seq<seq<SearchResultItem>>, penalty: real, r: Option<string>, k: string)
    requires IsCanonical(stores, penalty, r) && r.Some?
    requires k in Candidates(stores)
    ensures r.value in Candidates(stores)
    ensures FinalScore(stores, penalty, k) <= FinalScore(stores, penalty, r.value)
  {
    OrderFacts(stores);
    var m :| 0 <= m < |Order(stores)| && Order(stores)[m] == r.value && FirstMaximal(stores, penalty, Order(stores), m);
    var j :| 0 <= j < |Order(stores)| && Order(stores)[j] == k;
  }

  // Position and agreement across stores beat repetition at a low rank (the docstring's claim, cli.py:73-74)

  /** A store votes only for ISBNs its items carry. */
  lemma VotesWithin(items: seq<SearchResultItem>, isbns: set<string>)
    requires forall j :: 0 <= j < |items| && Vote(items[j]).Some? ==> Vote(items[j]).value in isbns
    ensures StoreVotes(items) <= isbns
  {
    forall k | k in StoreVotes(items) ensures k in isbns {
      VotesHaveIndex(items, k);
      FirstIndexFound(items, k);
    }
  }

  /** Three stores: candidates and raw scores are the stores' own, summed. */
  lemma ThreeStores(s1: seq<SearchResultItem>, s2: seq<SearchResultItem>, s3: seq<SearchResultItem>)
    ensures Candidates([s1, s2, s3]) == StoreVotes(s1) + StoreVotes(s2) + StoreVotes(s3)
    ensures forall k :: RawScore([s1, s2, s3], k) == StoreScore(s1, k) + StoreScore(s2, k) + StoreScore(s3, k)
  {
    StoreAdded([], s1);
    assert [s1] == [] + [s1];
    StoreAdded([s1], s2);
    assert [s1, s2] == [s1] + [s2];
    StoreAdded([s1, s2], s3);
    assert [s1, s2, s3] == [s1, s2] + [s3];
  }

  /** One store listing A, B, B: A scores 1, B only 1/2 however often it repeats, so A wins. */
  lemma PositionBeatsRepetition(x: SearchResultItem, y: SearchResultItem, y': SearchResultItem, penalty: real, r: Option<string>)
    requires Vote(x).Some? && Vote(y).Some? && Vote(y') == Vote(y) && Vote(x) != Vote(y)
    requires !Penalized(Vote(x).value, penalty) && !Penalized(Vote(y).value, penalty)
    requires IsCanonical([[x, y, y']], penalty, r)
    ensures r == Vote(x)
  {
    var items := [x, y, y'];
    var a, b := Vote(x).value, Vote(y).value;
    StoreAdded([], items);
    assert [items] == [] + [items];
    VotesWithin(items, {a, b});
    StoreScoreAt(items, a, 0);
    StoreScoreAt(items, b, 1);
    StoreScoreRange(items, a);
    CanonicalIsMaximal([items], penalty, r, a);
  }

  /** Stores [A], [A] and [B, B, A]: A scores 1 + 1 + 1/3 against B's 1, so agreement across stores wins. */
  lemma AgreementBeatsFrequency(x: SearchResultItem, x': SearchResultItem, x'': SearchResultItem,
                                y: SearchResultItem, y': SearchResultItem, penalty: real, r: Option<string>)
    requires Vote(x).Some? && Vote(x') == Vote(x) && Vote(x'') == Vote(x)
    requires Vote(y).Some? && Vote(y') == Vote(y) && Vote(x) != Vote(y)
    requires !Penalized(Vote(x).value, penalty) && !Penalized(Vote(y).value, penalty)
    requires IsCanonical([[x], [x'], [y, y', x'']], penalty, r)
    ensures r == Vote(x)
  {
    var a, b := Vote(x).value, Vote(y).value;
    ThreeStores([x], [x'], [y, y', x'']);
    VotesWithin([x], {a});
    VotesWithin([x'], {a});
    VotesWithin([y, y', x''], {a, b});
    StoreScoreAt([x], a, 0);
    StoreScoreAt([x'], a, 0);
    StoreScoreAt([y, y', x''], a, 2);
    StoreScoreAt([y, y', x''], b, 0);
    StoreScoreRange([x], a);
    StoreScoreRange([x], b);
    StoreScoreRange([x'], b);
    CanonicalIsMaximal([[x], [x'], [y, y', x'']], penalty, r, a);
  }

  /**
   * Stores [X], [X] and [Y] with X in the 979-8 range: X's raw 2 shrinks to 0.6 under the
   * default penalty and Y's 1 wins; with the penalty disabled X wins.
   */
  lemma PenaltyDemotes(x: SearchResultItem, x': SearchResultItem, y: SearchResultItem, r: Option<string>, r': Option<string>)
    requires Vote(x).Some? && Vote(x') == Vote(x) && StartsWith(Vote(x).value, SelfPublishedPrefix)
    requires Vote(y).Some? && !StartsWith(Vote(y).value, SelfPublishedPrefix)
    requires IsCanonical([[x], [x'], [y]], DefaultPenalty, r)
    requires IsCanonical([[x], [x'], [y]], 1.0, r')
    ensures r == Vote(y)
    ensures r' == Vote(x)
  {
    var a, b := Vote(x).value, Vote(y).value;
    ThreeStores([x], [x'], [y]);
    VotesWithin([x], {a});
    VotesWithin([x'], {a});
    VotesWithin([y], {b});
    StoreScoreAt([x], a, 0);
    StoreScoreAt([x'], a, 0);
    StoreScoreAt([y], b, 0);
    StoreScoreRange([x], b);
    StoreScoreRange([x'], b);
    StoreScoreRange([y], a);
    StoreScoreRange([y], b);
    CanonicalIsMaximal([[x], [x'], [y]], DefaultPenalty, r, b);
    CanonicalIsMaximal([[x], [x'], [y]], 1.0, r', a);
  }

  // Majority vote (`find_canonical_isbn`, `find_canonical_isbn_from_results`)

  function Count(isbns: seq<string>, isbn: string): nat
  {
    multiset(isbns)[isbn]
  }

  /**
   * The index of the first entry from `i` on with a count above every earlier entry's: a
   * counter lists its keys in first-seen order and `most_common` keeps that order among equal
   * counts.
   */
  function MostCommonFrom(isbns: seq<string>, i: nat, best: nat): (m: nat)
    requires best < i <= |isbns|
    requires forall j :: 0 <= j < i ==> Count(isbns, isbns[j]) <= Count(isbns, isbns[best])
    requires forall j :: 0 <= j < best ==> Count(isbns, isbns[j]) < Count(isbns, isbns[best])
    ensures m < |isbns|
    ensures forall j :: 0 <= j < |isbns| ==> Count(isbns, isbns[j]) <= Count(isbns, isbns[m])
    ensures forall j :: 0 <= j < m ==> Count(isbns, isbns[j]) < Count(isbns, isbns[m])
    decreases |isbns| - i
  {
    if i == |isbns| then best
    else if Count(isbns, isbns[i]) > Count(isbns, isbns[best]) then MostCommonFrom(isbns, i + 1, i)
    else MostCommonFrom(isbns, i + 1, best)
  }

  /**
   * `find_canonical_isbn`: nothing for an empty list, otherwise an ISBN no other occurs more
   * often than, the first-seen among equals.
   */
  function FindCanonicalIsbn(isbns: seq<string>): (r: Option<string>)
    ensures r.None? <==> |isbns| == 0
    ensures r.Some? ==>
      exists m :: 0 <= m < |isbns| && isbns[m] == r.value
        && (forall j :: 0 <= j < |isbns| ==> Count(isbns, isbns[j]) <= Count(isbns, r.value))
        && (forall j :: 0 <= j < m ==> Count(isbns, isbns[j]) < Count(isbns, r.value))
  {
    if |isbns| == 0 then None else Some(isbns[MostCommonFrom(isbns, 1, 0)])
  }

  /** No ISBN outside the list occurs in it more often than the majority pick. */
  lemma MajorityBeatsAll(isbns: seq<string>, other: string)
    requires |isbns| > 0
    ensures Count(isbns, other) <= Count(isbns, FindCanonicalIsbn(isbns).value)
  {
    if other in isbns {
      var j :| 0 <= j < |isbns| && isbns[j] == other;
    }
  }

  /** The ISBN a detail result carries: results that are missing or have no (or an empty) ISBN carry none. */
  function Carried(result: Option<BookResult>): Option<string>
  {
    if result.Some? && result.value.isbn.Some? && result.value.isbn.value != "" then result.value.isbn else None
  }

  /**
   * `[r.isbn for r in results if r and r.isbn]`: the carried ISBNs in result order, one entry for
   * each result that carries one.
   */
  function ResultIsbns(results: seq<Option<BookResult>>): (isbns: seq<string>)
    ensures isbns == FilterMap(results, Carried)
    ensures |isbns| <= |results|
    ensures forall k :: k in isbns <==> exists i :: 0 <= i < |results| && Carried(results[i]) == Some(k)
  {
    if |results| == 0 then []
    else
      var rest := ResultIsbns(results[1..]);
      assert results == [results[0]] + results[1..];
      FilterMapCons(results[0], results[1..], Carried);
      FilterMapFacts(results, Carried);
      match Carried(results[0])
      case Some(k) => [k] + rest
      case None => rest
  }

  /** How many results carry `isbn`. */
  function Carriers(results: seq<Option<BookResult>>, isbn: string): nat
  {
    if |results| == 0 then 0
    else Carriers(results[..|results| - 1], isbn) + (if Carried(results[|results| - 1]) == Some(isbn) then 1 else 0)
  }

  /** An ISBN occurs in the carried list once for every result that carries it. */
  lemma {:induction false} CarriersCount(results: seq<Option<BookResult>>, isbn: string)
    ensures Count(ResultIsbns(results), isbn) == Carriers(results, isbn)
    decreases |results|
  {
    if |results| > 0 {
      var init := results[..|results| - 1];
      CarriersCount(init, isbn);
      var last := Carried(results[|results| - 1]);
      var tail := if last.Some? then [last.value] else [];
      assert ResultIsbns(results) == ResultIsbns(init) + tail;
      assert multiset(ResultIsbns(results)) == multiset(ResultIsbns(init)) + multiset(tail);
    }
  }

  /** No ISBN is carried by more results than the majority pick over the carried list. */
  lemma FromResultsBeatsAll(results: seq<Option<BookResult>>, other: string)
    requires |ResultIsbns(results)| > 0
    ensures Carriers(results, other) <= Carriers(results, FindCanonicalIsbn(ResultIsbns(results)).value)
  {
    MajorityBeatsAll(ResultIsbns(results), other);
    CarriersCount(results, other);
    CarriersCount(results, FindCanonicalIsbn(ResultIsbns(results)).value);
  }

  /**
   * When the first `m` results give the first `p` carried ISBNs, and each of those is less
   * frequent than `best`, so is every ISBN carried by one of the first `m` results.
   */
  lemma CarriedBeforeFewer(results: seq<Option<BookResult>>, isbns: seq<string>, best: string, m: nat, p: nat, j: nat)
    requires j < m <= |results| && Carried(results[j]).Some?
    requires p <= |isbns| && FilterMap(results[..m], Carried) == isbns[..p]
    requires forall i :: 0 <= i < p ==> Count(isbns, isbns[i]) < Count(isbns, best)
    ensures Count(isbns, Carried(results[j]).value) < Count(isbns, best)
  {
    FilterMapFacts(results[..m], Carried);
    assert results[..m][j] == results[j];
    var q :| 0 <= q < p && isbns[..p][q] == Carried(results[j]).value;
    assert isbns[q] == isbns[..p][q];
  }

  /**
   * The first result that carries the majority pick comes after results that only carry ISBNs
   * fewer results carry.
   */
  lemma FromResultsFirst(results: seq<Option<BookResult>>)
    requires |ResultIsbns(results)| > 0
    ensures var r := FindCanonicalIsbn(ResultIsbns(results));
      exists m :: 0 <= m < |results| && Carried(results[m]) == r &&
        forall j :: 0 <= j < m && Carried(results[j]).Some? ==>
          Carriers(results, Carried(results[j]).value) < Carriers(results, r.value)
  {
    var isbns := ResultIsbns(results);
    var best := FindCanonicalIsbn(isbns).value;
    var p :| 0 <= p < |isbns| && isbns[p] == best &&
      forall j :: 0 <= j < p ==> Count(isbns, isbns[j]) < Count(isbns, best);
    var m := FilterMapIndex(results, Carried, p);
    CarriersCount(results, best);
    forall j | 0 <= j < m && Carried(results[j]).Some?
      ensures Carriers(results, Carried(results[j]).value) < Carriers(results, best)
    {
      CarriedBeforeFewer(results, isbns, best, m, p, j);
      CarriersCount(results, Carried(results[j]).value);
    }
    assert Carried(results[m]) == Some(best);
  }

  /**
   * `find_canonical_isbn_from_results`: nothing exactly when no result carries an ISBN;
   * otherwise the ISBN the most results carry, the first carried among equals.
   */
  function FindCanonicalIsbnFromResults(results: seq<Option<BookResult>>): (r: Option<string>)
    ensures r.None? <==> forall i :: 0 <= i < |results| ==> Carried(results[i]).None?
    ensures r.Some? ==> forall k :: Carriers(results, k) <= Carriers(results, r.value)
    ensures r.Some? ==>
      exists m :: 0 <= m < |results| && Carried(results[m]) == r &&
        forall j :: 0 <= j < m && Carried(results[j]).Some? ==>
          Carriers(results, Carried(results[j]).value) < Carriers(results, r.value)
  {
    var isbns := ResultIsbns(results);
    if |isbns| == 0 then None
    else
      assert isbns[0] in isbns;
      forall k ensures Carriers(results, k) <= Carriers(results, FindCanonicalIsbn(isbns).value) {
        FromResultsBeatsAll(results, k);
      }
      FromResultsFirst(results);
      FindCanonicalIsbn(isbns)
  }
}
