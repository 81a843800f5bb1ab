/**
 * Adjacent-pair counting (`BPETokenizer._find_common_pairs`) and the
 * "most frequent pair" choice that training makes from its result.
 *
 * The counter is a `defaultdict(int)`, so its keys come out in the order in
 * which each pair FIRST occurs; Python's `max` keeps the first maximal item.
 * Both orders matter for which pair training picks on a tie, so the counter
 * is modelled as a map of counts together with the sequence of its keys in
 * first-occurrence order.
 */
module PairCounting {

  /** A token id: 0..255 stand for raw bytes, 256 and above are minted by training. */
  type TokenId = nat

  /** A raw byte of UTF-8 text. */
  type Byte = b: TokenId | b < 256

  /** An ordered pair of adjacent token ids, the unit a merge rule rewrites. */
  type Pair = (TokenId, TokenId)

  /** The adjacent pairs (t[i], t[i+1]) of a token list, left to right. */
  function Pairs(t: seq<TokenId>): (ps: seq<Pair>)
    ensures |ps| == if |t| < 2 then 0 else |t| - 1
    ensures forall i :: 0 <= i < |ps| ==> ps[i] == (t[i], t[i + 1])
  {
    if |t| < 2 then [] else [(t[0], t[1])] + Pairs(t[1..])
  }

  /** The distinct elements of `s`, each at the place where it first occurs. */
  function Distinct(s: seq<Pair>): (d: seq<Pair>)
    ensures forall x :: x in d <==> x in s
    ensures forall i, j :: 0 <= i < j < |d| ==> d[i] != d[j]
  {
    if s == [] then []
    else
      var d := Distinct(s[..|s| - 1]);
      assert s == s[..|s| - 1] + [s[|s| - 1]];
      if s[|s| - 1] in d then d else d + [s[|s| - 1]]
  }

  /** Number of occurrences of each element of `s` (the keys are exactly the elements). */
  function CountMap(s: seq<Pair>): map<Pair, nat>
  {
    map p | p in s :: multiset(s)[p]
  }

  /** Sum of the counts of the keys listed in `order`. */
  function SumCounts(order: seq<Pair>, counts: map<Pair, nat>): nat
    requires forall p :: p in order ==> p in counts
  {
    if order == [] then 0
    else SumCounts(order[..|order| - 1], counts) + counts[order[|order| - 1]]
  }

  /**
   * Index of the first element of `order` whose count is maximal: the item
   * `max(pairs.items(), key=count)` returns, since `max` only replaces its
   * current best by a strictly larger one.
   */
  function FirstMaxIndex(order: seq<Pair>, counts: map<Pair, nat>): (i: nat)
    requires order != []
    requires forall p :: p in order ==> p in counts
    ensures i < |order|
    ensures forall j :: 0 <= j < |order| ==> counts[order[j]] <= counts[order[i]]
    ensures forall j :: 0 <= j < i ==> counts[order[j]] < counts[order[i]]
  {
    if |order| == 1 then 0
    else
      var b := FirstMaxIndex(order[..|order| - 1], counts);
      if counts[order[|order| - 1]] > counts[order[b]] then |order| - 1 else b
  }

  /**
   * `p` is the pair `max` picks from the counter of `ps`: it occurs, no pair
   * occurs more often, and every pair occurring as often first occurs no
   * earlier than `p` does.
   */
  ghost predicate IsFirstMaximal(ps: seq<Pair>, p: Pair)
  {
    && p in ps
    && (forall q :: q in ps ==> CountMap(ps)[q] <= CountMap(ps)[p])
    && (forall i :: 0 <= i < |ps| && CountMap(ps)[ps[i]] == CountMap(ps)[p] ==> p in ps[..i + 1])
  }

  /** The pair training merges next: the first key of greatest count. */
  function MostFrequent(t: seq<TokenId>): (p: Pair)
    requires |t| >= 2
    ensures p in Pairs(t)
  {
    var order := Distinct(Pairs(t));
    order[FirstMaxIndex(order, CountMap(Pairs(t)))]
  }

  /** The pair training merges next is the first maximal pair of the list. */
  lemma MostFrequentIsFirstMaximal(t: seq<TokenId>)
    requires |t| >= 2
    ensures IsFirstMaximal(Pairs(t), MostFrequent(t))
  {
    var ps := Pairs(t);
    FirstMaxIsFirstMaximal(ps, FirstMaxIndex(Distinct(ps), CountMap(ps)));
  }

  /** The first maximal key of the counter, in first-occurrence order, is the first maximal pair. */
  lemma FirstMaxIsFirstMaximal(ps: seq<Pair>, k: nat)
    requires Distinct(ps) != []
    requires k == FirstMaxIndex(Distinct(ps), CountMap(ps))
    ensures IsFirstMaximal(ps, Distinct(ps)[k])
  {
    var d := Distinct(ps);
    var counts := CountMap(ps);
    forall q | q in ps ensures counts[q] <= counts[d[k]] {
      var j :| 0 <= j < |d| && d[j] == q;
    }
    forall i | 0 <= i < |ps| && counts[ps[i]] == counts[d[k]]
      ensures d[k] in ps[..i + 1]
    {
      TieComesLater(ps, counts, k, i);
    }
  }

  /** A pair as frequent as the chosen one, seen at position i, means the chosen one was seen by i. */
  lemma TieComesLater(ps: seq<Pair>, counts: map<Pair, nat>, k: nat, i: nat)
    requires forall p :: p in ps ==> p in counts
    requires k < |Distinct(ps)| && i < |ps|
    requires forall j :: 0 <= j < k ==> counts[Distinct(ps)[j]] < counts[Distinct(ps)[k]]
    requires counts[ps[i]] == counts[Distinct(ps)[k]]
    ensures Distinct(ps)[k] in ps[..i + 1]
  {
    var d := Distinct(ps);
    var e := Distinct(ps[..i + 1]);
    DistinctPrefix(ps, i + 1);
    assert ps[i] in ps[..i + 1];
    var j :| 0 <= j < |e| && e[j] == ps[i];
    assert d[j] == ps[i];
    assert k <= j;
    assert d[k] == e[k];
  }

  /** Deduplicating a prefix gives a prefix of the deduplicated whole. */
  lemma {:induction false} DistinctPrefix(s: seq<Pair>, n: nat)
    requires n <= |s|
    ensures Distinct(s[..n]) <= Distinct(s)
    decreases |s| - n
  {
    if n < |s| {
      var init := s[..|s| - 1];
      assert init[..n] == s[..n];
      DistinctPrefix(init, n);
    } else {
      assert s[..n] == s;
    }
  }

  /** Counting one more occurrence of `x`. */
  lemma CountMapSnoc(s: seq<Pair>, x: Pair)
    ensures CountMap(s + [x]) ==
            CountMap(s)[x := (if x in CountMap(s) then CountMap(s)[x] else 0) + 1]
  {
    assert multiset(s + [x]) == multiset(s) + multiset{x};
    var l := CountMap(s + [x]);
    var r := CountMap(s)[x := (if x in CountMap(s) then CountMap(s)[x] else 0) + 1];
    assert forall p :: p in s + [x] <==> p in s || p == x;
    assert l.Keys == r.Keys;
    forall p | p in l ensures l[p] == r[p] {
      if p == x {
        if x !in s {
          assert multiset(s)[x] == 0;
        }
      }
    }
  }

  /** Updating the count of a key that `order` does not list leaves the sum alone. */
  lemma {:induction false} SumCountsUnlisted(order: seq<Pair>, counts: map<Pair, nat>, x: Pair, v: nat)
    requires forall p :: p in order ==> p in counts
    requires x !in order
    ensures SumCounts(order, counts[x := v]) == SumCounts(order, counts)
  {
    if order != [] {
      assert order == order[..|order| - 1] + [order[|order| - 1]];
      SumCountsUnlisted(order[..|order| - 1], counts, x, v);
    }
  }

  /** Adding one to the count of a key that `order` lists once adds one to the sum. */
  lemma {:induction false} SumCountsBump(order: seq<Pair>, counts: map<Pair, nat>, x: Pair)
    requires forall p :: p in order ==> p in counts
    requires forall i, j :: 0 <= i < j < |order| ==> order[i] != order[j]
    requires x in order
    ensures SumCounts(order, counts[x := counts[x] + 1]) == SumCounts(order, counts) + 1
  {
    var init := order[..|order| - 1];
    var last := order[|order| - 1];
    if last == x {
      assert x !in init;
      SumCountsUnlisted(init, counts, x, counts[x] + 1);
    } else {
      assert order == init + [last];
      SumCountsBump(init, counts, x);
    }
  }

  /** The counts add up to the number of positions: each contributes to exactly one pair. */
  lemma {:induction false} CountsSum(s: seq<Pair>)
    ensures SumCounts(Distinct(s), CountMap(s)) == |s|
  {
    if s != [] {
      var init := s[..|s| - 1];
      var x := s[|s| - 1];
      assert s == init + [x];
      CountsSum(init);
      CountMapSnoc(init, x);
      if x in Distinct(init) {
        SumCountsBump(Distinct(init), CountMap(init), x);
      } else {
        SumCountsUnlisted(Distinct(init), CountMap(init), x, 1);
      }
    }
  }

  /**
   * `_find_common_pairs`: one pass over the positions 0 .. len(tokens)-2,
   * incrementing a counter that creates a key the first time it sees a pair.
   */
  method FindCommonPairs(tokens: seq<TokenId>) returns (counts: map<Pair, nat>, order: seq<Pair>)
    ensures counts == CountMap(Pairs(tokens))
    ensures order == Distinct(Pairs(tokens))
    ensures counts == map[] <==> |tokens| < 2
  {
    ghost var ps := Pairs(tokens);
    counts, order := map[], [];
    var i := 0;
    while i < |tokens| - 1
      invariant 0 <= i <= |ps|
      invariant counts == CountMap(ps[..i])
      invariant order == Distinct(ps[..i])
    {
      var pair := (tokens[i], tokens[i + 1]);
      assert ps[..i + 1] == ps[..i] + [pair];
      CountMapSnoc(ps[..i], pair);
      if pair !in counts {
        order := order + [pair];
      }
      counts := counts[pair := (if pair in counts then counts[pair] else 0) + 1];
      i := i + 1;
    }
    assert ps[..i] == ps;
    if |tokens| >= 2 {
      assert ps[0] in counts;
    }
  }
}
