/**
 * The merge-rule table. `merges` is the ordered list of `(pair, new_id)`
 * entries (the rank of a rule is its position); `merge_ranks`, `id_to_pair`,
 * `dict(merges)`, `vocab` and `next_id` are all derived from it the way
 * `load` rebuilds them, each later entry overwriting an earlier one.
 */
module RuleTable {
  import opened PairCounting

  /** One rule as `save` writes it: the pair and the id it merges into. */
  datatype Entry = Entry(pair: Pair, newId: TokenId)

  /** No later entry of `es` has the same pair as entry `k`. */
  ghost predicate LastWithPair(es: seq<Entry>, k: int)
  {
    0 <= k < |es| && forall j :: k < j < |es| ==> es[j].pair != es[k].pair
  }

  /** No later entry of `es` has the same new id as entry `k`. */
  ghost predicate LastWithId(es: seq<Entry>, k: int)
  {
    0 <= k < |es| && forall j :: k < j < |es| ==> es[j].newId != es[k].newId
  }

  /** The pairs the entries merge. */
  function PairsOf(es: seq<Entry>): set<Pair>
  {
    set e | e in es :: e.pair
  }

  /** The ids the entries mint. */
  function IdsOf(es: seq<Entry>): set<TokenId>
  {
    set e | e in es :: e.newId
  }

  /** `merge_ranks`: each pair maps to the index of its last entry. */
  function RanksOf(es: seq<Entry>): (r: map<Pair, nat>)
    ensures r.Keys == PairsOf(es)
  {
    if es == [] then map[] else RanksOf(es[..|es| - 1])[es[|es| - 1].pair := |es| - 1]
  }

  /** `dict(merges)`: each pair maps to the new id of its last entry. */
  function MergeDict(es: seq<Entry>): (r: map<Pair, TokenId>)
    ensures r.Keys == PairsOf(es)
  {
    if es == [] then map[] else MergeDict(es[..|es| - 1])[es[|es| - 1].pair := es[|es| - 1].newId]
  }

  /** `id_to_pair`: each new id maps to the pair of its last entry. */
  function IdPairsOf(es: seq<Entry>): map<TokenId, Pair>
  {
    if es == [] then map[] else IdPairsOf(es[..|es| - 1])[es[|es| - 1].newId := es[|es| - 1].pair]
  }

  /** `merge_ranks` knows exactly the pairs of the entries, each at the position of its last entry. */
  lemma {:induction false} RanksOfSpec(es: seq<Entry>)
    ensures RanksOf(es).Keys == PairsOf(es)
    ensures forall p :: p in RanksOf(es) ==> LastWithPair(es, RanksOf(es)[p]) && es[RanksOf(es)[p]].pair == p
  {
    if es != [] {
      var init := es[..|es| - 1];
      assert es == init + [es[|es| - 1]];
      RanksOfSpec(init);
    }
  }

  /** `dict(merges)` knows exactly the pairs of the entries, each with the id of its last entry. */
  lemma {:induction false} MergeDictSpec(es: seq<Entry>)
    ensures MergeDict(es).Keys == PairsOf(es)
    ensures forall k :: LastWithPair(es, k) ==> MergeDict(es)[es[k].pair] == es[k].newId
  {
    if es != [] {
      var init := es[..|es| - 1];
      assert es == init + [es[|es| - 1]];
      MergeDictSpec(init);
    }
  }

  /** `id_to_pair` knows exactly the new ids of the entries, each with the pair of its last entry. */
  lemma {:induction false} IdPairsOfSpec(es: seq<Entry>)
    ensures IdPairsOf(es).Keys == IdsOf(es)
    ensures forall k :: LastWithId(es, k) ==> IdPairsOf(es)[es[k].newId] == es[k].pair
  {
    if es != [] {
      var init := es[..|es| - 1];
      assert es == init + [es[|es| - 1]];
      IdPairsOfSpec(init);
    }
  }

  /** The ids below `n`. */
  function Range(n: nat): (r: set<TokenId>)
  {
    set i: nat | i < n && Below(i, n)
  }

  /** `i < n`, as a term a quantifier over `i` can be triggered on. */
  predicate Below(i: nat, n: nat)
  {
    i < n
  }

  /** The ids below `n + 1` are those below `n` and `n`. */
  lemma RangeSnoc(n: nat)
    ensures Range(n + 1) == Range(n) + {n}
  {
    assert forall i: nat :: i in Range(n + 1) <==> i in Range(n) || i == n;
  }

  /** `range(n)` has `n` elements. */
  lemma {:induction false} RangeSize(n: nat)
    ensures |Range(n)| == n
  {
    if n > 0 {
      RangeSnoc(n - 1);
      RangeSize(n - 1);
    } else {
      assert Range(n) == {};
    }
  }

  /** `vocab`: the 256 byte ids, then each minted id added in turn. */
  function VocabOf(es: seq<Entry>): set<TokenId>
  {
    if es == [] then Range(256) else VocabOf(es[..|es| - 1]) + {es[|es| - 1].newId}
  }

  /** `vocab` is the 256 byte ids together with every minted id. */
  lemma {:induction false} VocabOfSpec(es: seq<Entry>)
    ensures VocabOf(es) == Range(256) + IdsOf(es)
  {
    if es != [] {
      var init := es[..|es| - 1];
      assert es == init + [es[|es| - 1]];
      VocabOfSpec(init);
      assert IdsOf(es) == IdsOf(init) + {es[|es| - 1].newId};
    }
  }

  /** `next_id` after `load`: 256, raised past every new id seen. */
  function NextIdOf(es: seq<Entry>): nat
  {
    if es == [] then 256
    else
      var m := NextIdOf(es[..|es| - 1]);
      if m > es[|es| - 1].newId + 1 then m else es[|es| - 1].newId + 1
  }

  /** `next_id` is the greatest of 256 and one past each new id. */
  lemma {:induction false} NextIdOfSpec(es: seq<Entry>)
    ensures NextIdOf(es) >= 256
    ensures forall e :: e in es ==> e.newId < NextIdOf(es)
    ensures NextIdOf(es) == 256 || exists e :: e in es && NextIdOf(es) == e.newId + 1
  {
    if es != [] {
      var init := es[..|es| - 1];
      var last := es[|es| - 1];
      assert es == init + [last];
      NextIdOfSpec(init);
    }
  }

  /** Appending one entry updates each derived field the way one step of `load` does. */
  lemma TableSnoc(es: seq<Entry>, e: Entry)
    ensures RanksOf(es + [e]) == RanksOf(es)[e.pair := |es|]
    ensures MergeDict(es + [e]) == MergeDict(es)[e.pair := e.newId]
    ensures IdPairsOf(es + [e]) == IdPairsOf(es)[e.newId := e.pair]
    ensures VocabOf(es + [e]) == VocabOf(es) + {e.newId}
    ensures NextIdOf(es + [e]) == if NextIdOf(es) > e.newId + 1 then NextIdOf(es) else e.newId + 1
  {
    assert (es + [e])[..|es|] == es;
    assert IdsOf(es + [e]) == IdsOf(es) + {e.newId};
  }

  /**
   * The shape of a table trained on a fresh instance: the k-th rule mints
   * id 256 + k from two ids minted before it (or raw bytes).
   */
  ghost predicate Trained(es: seq<Entry>)
  {
    && Minted(es)
    && forall k :: 0 <= k < |es| ==> es[k].pair.0 < 256 + k && es[k].pair.1 < 256 + k
  }

  /** The k-th rule mints id 256 + k. */
  ghost predicate Minted(es: seq<Entry>)
  {
    forall k :: 0 <= k < |es| ==> es[k].newId == 256 + k
  }

  /** Appending the rule that mints the next id keeps the table minted in order. */
  lemma MintedSnoc(es: seq<Entry>, e: Entry)
    requires Minted(es) && e.newId == 256 + |es|
    ensures Minted(es + [e])
  {
    forall k | 0 <= k < |es| + 1 ensures (es + [e])[k].newId == 256 + k {
      if k < |es| {
        assert (es + [e])[k] == es[k];
      }
    }
  }

  /** No pair is the subject of two rules. */
  ghost predicate DistinctPairs(es: seq<Entry>)
  {
    forall i, j :: 0 <= i < j < |es| ==> es[i].pair != es[j].pair
  }

  /** On a trained table, `id_to_pair` sends id 256 + k to the k-th pair and knows no other id. */
  lemma TrainedIdPairs(es: seq<Entry>)
    requires Minted(es)
    ensures forall k :: 0 <= k < |es| ==> 256 + k in IdPairsOf(es) && IdPairsOf(es)[256 + k] == es[k].pair
    ensures forall id :: id in IdPairsOf(es) <==> 256 <= id < 256 + |es|
  {
    IdPairsOfSpec(es);
    var m := IdPairsOf(es);
    forall k | 0 <= k < |es| ensures 256 + k in m && m[256 + k] == es[k].pair {
      assert es[k] in es;
      assert LastWithId(es, k);
    }
    forall id | id in m ensures 256 <= id < 256 + |es| {
      var e :| e in es && e.newId == id;
      var k :| 0 <= k < |es| && es[k] == e;
    }
    forall id | 256 <= id < 256 + |es| ensures id in IdPairsOf(es) {
      assert es[id - 256] in es;
    }
  }

  /** On a trained table, `vocab` is exactly the ids below 256 + len(merges). */
  lemma {:induction false} TrainedVocab(es: seq<Entry>)
    requires Minted(es)
    ensures VocabOf(es) == Range(256 + |es|)
    ensures |VocabOf(es)| == 256 + |es|
  {
    if es != [] {
      var init := es[..|es| - 1];
      assert forall k :: 0 <= k < |init| ==> init[k] == es[k];
      TrainedVocab(init);
      RangeSnoc(256 + |init|);
    }
    RangeSize(256 + |es|);
  }

  /** Minting the next id grows the vocabulary by exactly one. */
  lemma VocabSnoc(es: seq<Entry>, e: Entry)
    requires Minted(es) && e.newId == 256 + |es|
    ensures |VocabOf(es + [e])| == |VocabOf(es)| + 1
  {
    TrainedVocab(es);
    TableSnoc(es, e);
    assert e.newId !in Range(256 + |es|);
  }

  /** On a trained table, `next_id` as `load` recomputes it is 256 + len(merges). */
  lemma TrainedNextId(es: seq<Entry>)
    requires Minted(es)
    ensures NextIdOf(es) == 256 + |es|
  {
    NextIdOfSpec(es);
    if es != [] {
      var e :| e in es && NextIdOf(es) == e.newId + 1;
      var k :| 0 <= k < |es| && es[k] == e;
      assert es[|es| - 1] in es;
    }
  }

  /** On a trained table without repeated pairs, `merge_ranks` gives each rule its position. */
  lemma TrainedRanks(es: seq<Entry>)
    requires DistinctPairs(es)
    ensures forall k :: 0 <= k < |es| ==> es[k].pair in RanksOf(es) && RanksOf(es)[es[k].pair] == k
  {
    RanksOfSpec(es);
    forall k | 0 <= k < |es|
      ensures es[k].pair in RanksOf(es) && RanksOf(es)[es[k].pair] == k
    {
      assert es[k] in es;
      var r := RanksOf(es)[es[k].pair];
      assert es[r].pair == es[k].pair;
    }
  }
}
