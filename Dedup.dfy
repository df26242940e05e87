/**
 * The list walks of the scrapers: the `seen`-set loops, which keep an element only when its key
 * has not been kept before, the loops that skip elements, and the loops that stop at the first
 * element that passes a test.
 */
module Dedup {
  import opened Wrappers

  /** The keys of the elements of `xs`. */
  function KeySet<T, K>(xs: seq<T>, key: T -> K): set<K>
  {
    set i | 0 <= i < |xs| :: key(xs[i])
  }

  /** The elements of `xs` whose key was not seen before them, in order. */
  function FirstByKey<T, K(==)>(xs: seq<T>, key: T -> K): seq<T>
  {
    if |xs| == 0 then []
    else
      var kept := FirstByKey(xs[..|xs| - 1], key);
      if key(xs[|xs| - 1]) in KeySet(kept, key) then kept else kept + [xs[|xs| - 1]]
  }

  /** What a loop step does: the new element is kept exactly when its key is new. */
  lemma FirstByKeyStep<T, K>(xs: seq<T>, x: T, key: T -> K)
    ensures FirstByKey(xs + [x], key)
         == if key(x) in KeySet(FirstByKey(xs, key), key) then FirstByKey(xs, key)
            else FirstByKey(xs, key) + [x]
  {
    assert (xs + [x])[..|xs|] == xs;
  }

  /**
   * What is kept: the keys are pairwise distinct, every key of the input is kept, and each kept
   * element stands in the input at a position before which its key does not occur.
   */
  lemma FirstByKeyFacts<T, K>(xs: seq<T>, key: T -> K)
    ensures |FirstByKey(xs, key)| <= |xs|
    ensures KeySet(FirstByKey(xs, key), key) == KeySet(xs, key)
    ensures forall a, b :: 0 <= a < b < |FirstByKey(xs, key)| ==>
      key(FirstByKey(xs, key)[a]) != key(FirstByKey(xs, key)[b])
    ensures forall d :: 0 <= d < |FirstByKey(xs, key)| ==>
      exists k :: 0 <= k < |xs| && xs[k] == FirstByKey(xs, key)[d] &&
        forall j :: 0 <= j < k ==> key(xs[j]) != key(xs[k])
  {
    FirstByKeyKeys(xs, key);
    FirstByKeyDistinct(xs, key);
    FirstByKeySources(xs, key);
  }

  /** Keeping first occurrences shortens the list and keeps its set of keys. */
  lemma {:induction false} FirstByKeyKeys<T, K>(xs: seq<T>, key: T -> K)
    ensures |FirstByKey(xs, key)| <= |xs|
    ensures KeySet(FirstByKey(xs, key), key) == KeySet(xs, key)
  {
    if |xs| > 0 {
      var init := xs[..|xs| - 1];
      var x := xs[|xs| - 1];
      assert xs == init + [x];
      FirstByKeyKeys(init, key);
      KeySetAppend(init, x, key);
      var kept := FirstByKey(init, key);
      if key(x) !in KeySet(kept, key) {
        KeySetAppend(kept, x, key);
      }
    }
  }

  /** No two kept elements share a key. */
  lemma {:induction false} FirstByKeyDistinct<T, K>(xs: seq<T>, key: T -> K)
    ensures forall a, b :: 0 <= a < b < |FirstByKey(xs, key)| ==>
      key(FirstByKey(xs, key)[a]) != key(FirstByKey(xs, key)[b])
  {
    if |xs| > 0 {
      var init := xs[..|xs| - 1];
      var x := xs[|xs| - 1];
      FirstByKeyDistinct(init, key);
      var kept := FirstByKey(init, key);
      if key(x) !in KeySet(kept, key) {
        var now := kept + [x];
        forall a, b | 0 <= a < b < |now| ensures key(now[a]) != key(now[b]) {
          if b == |kept| {
            assert key(kept[a]) in KeySet(kept, key);
          }
        }
      }
    }
  }

  /** Each kept element stands in the input at a position before which its key does not occur. */
  lemma {:induction false} FirstByKeySources<T, K>(xs: seq<T>, key: T -> K)
    ensures forall d :: 0 <= d < |FirstByKey(xs, key)| ==>
      exists k :: 0 <= k < |xs| && xs[k] == FirstByKey(xs, key)[d] &&
        forall j :: 0 <= j < k ==> key(xs[j]) != key(xs[k])
  {
    if |xs| > 0 {
      var init := xs[..|xs| - 1];
      var x := xs[|xs| - 1];
      assert xs == init + [x];
      FirstByKeySources(init, key);
      var kept := FirstByKey(init, key);
      var now := FirstByKey(xs, key);
      assert now == if key(x) in KeySet(kept, key) then kept else kept + [x];
      forall d | 0 <= d < |now|
        ensures exists k :: 0 <= k < |xs| && xs[k] == now[d] &&
                            forall j :: 0 <= j < k ==> key(xs[j]) != key(xs[k])
      {
        if d < |kept| {
          var k :| 0 <= k < |init| && init[k] == kept[d] &&
            forall j :: 0 <= j < k ==> key(init[j]) != key(init[k]);
          assert now[d] == kept[d];
          assert xs[k] == now[d];
          assert forall j :: 0 <= j < k ==> key(xs[j]) != key(xs[k]);
        } else {
          FirstByKeyKeys(init, key);
          var k := |xs| - 1;
          forall j | 0 <= j < k ensures key(xs[j]) != key(xs[k]) {
            assert key(init[j]) in KeySet(init, key);
          }
          assert xs[k] == now[d];
        }
      }
    } else {
      assert FirstByKey(xs, key) == [];
    }
  }

  /** Keeping first occurrences of a longer list starts with what was kept of its prefix. */
  lemma {:induction false} FirstByKeyPrefix<T, K>(xs: seq<T>, ys: seq<T>, key: T -> K)
    ensures |FirstByKey(xs, key)| <= |FirstByKey(xs + ys, key)|
    ensures FirstByKey(xs + ys, key)[..|FirstByKey(xs, key)|] == FirstByKey(xs, key)
    decreases |ys|
  {
    if |ys| == 0 {
      assert xs + ys == xs;
    } else {
      var init := ys[..|ys| - 1];
      FirstByKeyPrefix(xs, init, key);
      assert xs + ys == (xs + init) + [ys[|ys| - 1]];
      FirstByKeyStep(xs + init, ys[|ys| - 1], key);
    }
  }

  /** Appending an element adds its key and nothing else. */
  lemma KeySetAppend<T, K>(xs: seq<T>, x: T, key: T -> K)
    ensures KeySet(xs + [x], key) == KeySet(xs, key) + {key(x)}
  {
    var ys := xs + [x];
    assert ys[|xs|] == x;
    forall k | k in KeySet(ys, key) ensures k in KeySet(xs, key) + {key(x)} {
      var i :| 0 <= i < |ys| && key(ys[i]) == k;
      if i < |xs| { assert key(xs[i]) == k; }
    }
    forall k | k in KeySet(xs, key) ensures k in KeySet(ys, key) {
      var i :| 0 <= i < |xs| && key(xs[i]) == k;
      assert key(ys[i]) == k;
    }
  }

  /** The values `f` gives for the elements of `xs`, in order, skipping the elements it gives none for. */
  function FilterMap<A, B>(xs: seq<A>, f: A -> Option<B>): seq<B>
  {
    if |xs| == 0 then []
    else
      var last := f(xs[|xs| - 1]);
      FilterMap(xs[..|xs| - 1], f) + (if last.Some? then [last.value] else [])
  }

  lemma FilterMapStep<A, B>(xs: seq<A>, x: A, f: A -> Option<B>)
    ensures FilterMap(xs + [x], f) == FilterMap(xs, f) + (if f(x).Some? then [f(x).value] else [])
  {
    assert (xs + [x])[..|xs|] == xs;
  }

  /** Every value kept comes from some element, and every element's value is kept. */
  lemma {:induction false} FilterMapFacts<A, B>(xs: seq<A>, f: A -> Option<B>)
    ensures |FilterMap(xs, f)| <= |xs|
    ensures forall y :: y in FilterMap(xs, f) ==> exists k :: 0 <= k < |xs| && f(xs[k]) == Some(y)
    ensures forall k :: 0 <= k < |xs| && f(xs[k]).Some? ==> f(xs[k]).value in FilterMap(xs, f)
    decreases |xs|
  {
    if |xs| > 0 {
      var init := xs[..|xs| - 1];
      FilterMapFacts(init, f);
      forall y | y in FilterMap(xs, f) ensures exists k :: 0 <= k < |xs| && f(xs[k]) == Some(y) {
        if y in FilterMap(init, f) {
          var k :| 0 <= k < |init| && f(init[k]) == Some(y);
          assert xs[k] == init[k];
        } else {
          assert f(xs[|xs| - 1]) == Some(y);
        }
      }
      forall k | 0 <= k < |xs| && f(xs[k]).Some? ensures f(xs[k]).value in FilterMap(xs, f) {
        if k < |init| {
          assert xs[k] == init[k];
        }
      }
    }
  }

  /**
   * Mapping, then keeping the first value for each key: every value kept comes from some
   * element, and every element's value has its key among those kept.
   */
  lemma FirstByKeyOfFilterMap<A, B, K>(xs: seq<A>, f: A -> Option<B>, key: B -> K)
    ensures forall d :: 0 <= d < |FirstByKey(FilterMap(xs, f), key)| ==>
      exists k :: 0 <= k < |xs| && f(xs[k]) == Some(FirstByKey(FilterMap(xs, f), key)[d])
    ensures forall k :: 0 <= k < |xs| && f(xs[k]).Some? ==>
      exists d :: 0 <= d < |FirstByKey(FilterMap(xs, f), key)| &&
        key(FirstByKey(FilterMap(xs, f), key)[d]) == key(f(xs[k]).value)
  {
    var ys := FilterMap(xs, f);
    var kept := FirstByKey(ys, key);
    FilterMapFacts(xs, f);
    FirstByKeyFacts(ys, key);
    forall d | 0 <= d < |kept| ensures exists k :: 0 <= k < |xs| && f(xs[k]) == Some(kept[d]) {
      var e :| 0 <= e < |ys| && ys[e] == kept[d] && forall j :: 0 <= j < e ==> key(ys[j]) != key(ys[e]);
      assert kept[d] in ys;
    }
    forall k | 0 <= k < |xs| && f(xs[k]).Some?
      ensures exists d :: 0 <= d < |kept| && key(kept[d]) == key(f(xs[k]).value)
    {
      var y := f(xs[k]).value;
      assert y in ys;
      var e :| 0 <= e < |ys| && ys[e] == y;
      assert key(ys[e]) in KeySet(ys, key);
      var d :| 0 <= d < |kept| && key(kept[d]) == key(y);
    }
  }

  /** Where an element of a filtered list comes from. */
  lemma FilterMapSource<A, B>(xs: seq<A>, f: A -> Option<B>, d: nat) returns (k: nat)
    requires d < |FilterMap(xs, f)|
    ensures k < |xs| && f(xs[k]) == Some(FilterMap(xs, f)[d])
  {
    FilterMapFacts(xs, f);
    assert FilterMap(xs, f)[d] in FilterMap(xs, f);
    k :| 0 <= k < |xs| && f(xs[k]) == Some(FilterMap(xs, f)[d]);
  }

  /** The element a kept value comes from. */
  lemma KeptSource<A, B, K>(xs: seq<A>, f: A -> Option<B>, key: B -> K, d: nat) returns (k: nat)
    requires d < |FirstByKey(FilterMap(xs, f), key)|
    ensures k < |xs| && f(xs[k]) == Some(FirstByKey(FilterMap(xs, f), key)[d])
  {
    FirstByKeyOfFilterMap(xs, f, key);
    k :| 0 <= k < |xs| && f(xs[k]) == Some(FirstByKey(FilterMap(xs, f), key)[d]);
  }

  /** The kept value that has the key of an element's value. */
  lemma KeptWithKey<A, B, K>(xs: seq<A>, f: A -> Option<B>, key: B -> K, k: nat) returns (d: nat)
    requires k < |xs| && f(xs[k]).Some?
    ensures d < |FirstByKey(FilterMap(xs, f), key)|
    ensures key(FirstByKey(FilterMap(xs, f), key)[d]) == key(f(xs[k]).value)
  {
    FirstByKeyOfFilterMap(xs, f, key);
    d :| 0 <= d < |FirstByKey(FilterMap(xs, f), key)| &&
      key(FirstByKey(FilterMap(xs, f), key)[d]) == key(f(xs[k]).value);
  }

  /** The first element from position `i` on that satisfies `p`. */
  function FirstWhere<T>(xs: seq<T>, p: T -> bool, i: nat): (r: Option<T>)
    requires i <= |xs|
    ensures r.None? <==> forall j :: i <= j < |xs| ==> !p(xs[j])
    ensures r.Some? ==>
      exists m :: i <= m < |xs| && xs[m] == r.value && p(xs[m]) && forall j :: i <= j < m ==> !p(xs[j])
    decreases |xs| - i
  {
    if i == |xs| then None
    else if p(xs[i]) then Some(xs[i])
    else FirstWhere(xs, p, i + 1)
  }

  /** An element that satisfies `p` with none before it is the one `FirstWhere` finds. */
  lemma FirstWhereAt<T>(xs: seq<T>, p: T -> bool, m: nat)
    requires m < |xs| && p(xs[m]) && forall j :: 0 <= j < m ==> !p(xs[j])
    ensures FirstWhere(xs, p, 0) == Some(xs[m])
  {
    var r := FirstWhere(xs, p, 0);
    var m' :| 0 <= m' < |xs| && xs[m'] == r.value && p(xs[m']) && forall j :: 0 <= j < m' ==> !p(xs[j]);
    assert m' == m;
  }

  /** `xs[:n]`: the first `n` elements, or all of them when there are fewer. */
  function Window<T>(xs: seq<T>, n: nat): seq<T>
  {
    if |xs| <= n then xs else xs[..n]
  }

  lemma WindowAt<T>(xs: seq<T>, n: nat, k: nat)
    requires k < |xs| && k < n
    ensures k < |Window(xs, n)| && Window(xs, n)[k] == xs[k]
  {
  }

  /** Mapping a concatenation maps each part. */
  lemma {:induction false} FilterMapAppend<A, B>(xs: seq<A>, ys: seq<A>, f: A -> Option<B>)
    ensures FilterMap(xs + ys, f) == FilterMap(xs, f) + FilterMap(ys, f)
    decreases |ys|
  {
    if |ys| == 0 {
      assert xs + ys == xs;
    } else {
      var init, y := ys[..|ys| - 1], ys[|ys| - 1];
      FilterMapAppend(xs, init, f);
      assert xs + ys == (xs + init) + [y];
      FilterMapStep(xs + init, y, f);
      FilterMapStep(init, y, f);
      assert ys == init + [y];
    }
  }

  /** Filtering a list with an element in front handles that element first. */
  lemma FilterMapCons<A, B>(x: A, xs: seq<A>, f: A -> Option<B>)
    ensures FilterMap([x] + xs, f) == (if f(x).Some? then [f(x).value] else []) + FilterMap(xs, f)
  {
    FilterMapAppend([x], xs, f);
    assert [x][..0] == [];
  }

  /**
   * Where a filtered value comes from: the element that gives it, with the values before it
   * given by the elements before that one.
   */
  lemma {:induction false} FilterMapIndex<A, B>(xs: seq<A>, f: A -> Option<B>, p: nat) returns (m: nat)
    requires p < |FilterMap(xs, f)|
    ensures m < |xs| && f(xs[m]) == Some(FilterMap(xs, f)[p])
    ensures FilterMap(xs[..m], f) == FilterMap(xs, f)[..p]
    decreases |xs|
  {
    var init := xs[..|xs| - 1];
    var last := f(xs[|xs| - 1]);
    if p < |FilterMap(init, f)| {
      m := FilterMapIndex(init, f, p);
      assert xs[..m] == init[..m];
      assert xs[m] == init[m];
    } else {
      m := |xs| - 1;
      assert xs[..m] == init;
    }
  }

  /**
   * A loop that stops once it has kept `n` elements: what it kept from a prefix, once that
   * holds `n` elements, is the first `n` of what the whole list would give.
   */
  lemma CappedPrefix<A, B, K>(xs: seq<A>, i: nat, f: A -> Option<B>, key: B -> K, n: nat)
    requires i <= |xs| && |FirstByKey(FilterMap(xs[..i], f), key)| == n
    ensures Window(FirstByKey(FilterMap(xs, f), key), n) == FirstByKey(FilterMap(xs[..i], f), key)
  {
    assert xs == xs[..i] + xs[i..];
    FilterMapAppend(xs[..i], xs[i..], f);
    FirstByKeyPrefix(FilterMap(xs[..i], f), FilterMap(xs[i..], f), key);
  }
}
