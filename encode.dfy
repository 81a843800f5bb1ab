/**
 * The encoding loop of `BPETokenizer.encode`, as a function of the text's
 * bytes and the table, and the byte-level round trip through decoding.
 */
module Encoding {
  import opened PairCounting
  import opened MergePass
  import opened RuleTable
  import opened Decoding
  import opened Training

  /** The candidates: the counter's keys, in their order, that `merge_ranks` knows. */
  function Known(order: seq<Pair>, ranks: map<Pair, nat>): (c: seq<Pair>)
    ensures forall p :: p in c <==> p in order && p in ranks
  {
    if order == [] then []
    else (if order[0] in ranks then [order[0]] else []) + Known(order[1..], ranks)
  }

  /**
   * Index of the first candidate of least rank: what `min(candidates,
   * key=rank)` returns, since `min` only replaces its best by a strictly
   * smaller one.
   */
  function FirstMinIndex(c: seq<Pair>, ranks: map<Pair, nat>): (i: nat)
    requires c != []
    requires forall p :: p in c ==> p in ranks
    ensures i < |c|
    ensures forall j :: 0 <= j < |c| ==> ranks[c[i]] <= ranks[c[j]]
    ensures forall j :: 0 <= j < i ==> ranks[c[i]] < ranks[c[j]]
  {
    if |c| == 1 then 0
    else
      var b := FirstMinIndex(c[..|c| - 1], ranks);
      if ranks[c[|c| - 1]] < ranks[c[b]] then |c| - 1 else b
  }

  /**
   * Encoding from working list `t`: while some adjacent pair is ranked,
   * merge the one of least rank into the id `dict(merges)` gives it.
   */
  function EncodeFrom(t: seq<TokenId>, ranks: map<Pair, nat>, ids: map<Pair, TokenId>): seq<TokenId>
    requires forall p :: p in ranks ==> p in ids
    decreases |t|
  {
    var c := Known(Distinct(Pairs(t)), ranks);
    if c == [] then t
    else
      var best := c[FirstMinIndex(c, ranks)];
      EncodeFrom(Merge(t, best, ids[best]), ranks, ids)
  }

  /**
   * A table encoding and decoding agree on: decoding terminates, and every
   * ranked pair is merged into a composite id that decodes as that pair.
   */
  ghost predicate Sound(ranks: map<Pair, nat>, ids: map<Pair, TokenId>, idToPair: map<TokenId, Pair>)
  {
    && WellFormed(idToPair)
    && forall p :: p in ranks ==> p in ids && ids[p] >= 256 && ids[p] in idToPair && idToPair[ids[p]] == p
  }

  /** On return no adjacent pair of the result is a key of `merge_ranks`. */
  lemma {:induction false} EncodeFixpoint(t: seq<TokenId>, ranks: map<Pair, nat>, ids: map<Pair, TokenId>)
    requires forall p :: p in ranks ==> p in ids
    ensures forall q :: q in Pairs(EncodeFrom(t, ranks, ids)) ==> q !in ranks
    decreases |t|
  {
    var c := Known(Distinct(Pairs(t)), ranks);
    if c != [] {
      var best := c[FirstMinIndex(c, ranks)];
      EncodeFixpoint(Merge(t, best, ids[best]), ranks, ids);
    } else {
      forall q | q in Pairs(t) ensures q !in ranks {
        assert q in Distinct(Pairs(t));
        assert q !in c;
      }
    }
  }

  /**
   * Encoding never lengthens the list, and leaves it exactly as it is when no
   * adjacent pair is ranked (in particular with an empty table).
   */
  lemma {:induction false} EncodeUnchangedIff(t: seq<TokenId>, ranks: map<Pair, nat>, ids: map<Pair, TokenId>)
    requires forall p :: p in ranks ==> p in ids
    ensures |EncodeFrom(t, ranks, ids)| <= |t|
    ensures EncodeFrom(t, ranks, ids) == t <==> forall q :: q in Pairs(t) ==> q !in ranks
    decreases |t|
  {
    var c := Known(Distinct(Pairs(t)), ranks);
    if c != [] {
      var best := c[FirstMinIndex(c, ranks)];
      EncodeUnchangedIff(Merge(t, best, ids[best]), ranks, ids);
      assert best in Pairs(t) && best in ranks;
    } else {
      forall q | q in Pairs(t) ensures q !in ranks {
        assert q in Distinct(Pairs(t));
        assert q !in c;
      }
    }
  }

  /** With an empty table the result is exactly the input bytes. */
  lemma EncodeEmptyTable(bytes: seq<Byte>)
    ensures EncodeFrom(bytes, map[], map[]) == bytes
  {
    EncodeUnchangedIff(bytes, map[], map[]);
  }

  /** Encoding with a sound table does not change what the list decodes to. */
  lemma {:induction false} EncodePreservesBytes(m: map<TokenId, Pair>, t: seq<TokenId>,
                                                ranks: map<Pair, nat>, ids: map<Pair, TokenId>)
    requires Sound(ranks, ids, m)
    ensures Flatten(m, EncodeFrom(t, ranks, ids)) == Flatten(m, t)
    decreases |t|
  {
    var c := Known(Distinct(Pairs(t)), ranks);
    if c != [] {
      var best := c[FirstMinIndex(c, ranks)];
      MergePreservesExpansion(m, t, best, ids[best]);
      EncodePreservesBytes(m, Merge(t, best, ids[best]), ranks, ids);
    }
  }

  /** Distinct pairs get distinct ranks. */
  lemma RanksInjective(es: seq<Entry>)
    ensures forall p, q :: p in RanksOf(es) && q in RanksOf(es) && p != q ==> RanksOf(es)[p] != RanksOf(es)[q]
  {
    RanksOfSpec(es);
  }

  /**
   * Each encoding step merges the ranked pair of least rank present, whatever
   * its place in the list: the choice does not depend on first occurrence
   * when ranks are distinct, as those of a saved or trained table are.
   */
  lemma EncodeStep(t: seq<TokenId>, ranks: map<Pair, nat>, ids: map<Pair, TokenId>, q: Pair)
    requires forall p :: p in ranks ==> p in ids
    requires forall p, p' :: p in ranks && p' in ranks && p != p' ==> ranks[p] != ranks[p']
    requires q in Pairs(t) && q in ranks
    requires forall p :: p in Pairs(t) && p in ranks ==> ranks[q] <= ranks[p]
    ensures EncodeFrom(t, ranks, ids) == EncodeFrom(Merge(t, q, ids[q]), ranks, ids)
  {
    var c := Known(Distinct(Pairs(t)), ranks);
    assert q in c;
    var best := c[FirstMinIndex(c, ranks)];
    assert best in Pairs(t);
    assert ranks[best] == ranks[q];
  }

  /** A table with the trained shape is sound, so decoding undoes encoding with it. */
  lemma TrainedSound(es: seq<Entry>)
    requires Trained(es)
    ensures Sound(RanksOf(es), MergeDict(es), IdPairsOf(es))
  {
    TrainedWellFormed(es);
    TrainedIdPairs(es);
    RanksOfSpec(es);
    MergeDictSpec(es);
    var ranks := RanksOf(es);
    forall p | p in ranks
      ensures p in MergeDict(es) && MergeDict(es)[p] >= 256 && MergeDict(es)[p] in IdPairsOf(es)
              && IdPairsOf(es)[MergeDict(es)[p]] == p
    {
      var k := ranks[p];
      assert LastWithPair(es, k);
    }
  }

  /** Decoding the encoding of any bytes with a trained-shaped table gives the bytes back. */
  lemma TrainedRoundTrip(es: seq<Entry>, bytes: seq<Byte>)
    requires Trained(es)
    ensures WellFormed(IdPairsOf(es))
    ensures Flatten(IdPairsOf(es), EncodeFrom(bytes, RanksOf(es), MergeDict(es))) == bytes
  {
    TrainedSound(es);
    EncodePreservesBytes(IdPairsOf(es), bytes, RanksOf(es), MergeDict(es));
    FlattenBytes(IdPairsOf(es), bytes);
  }

  /** Byte-level `decode(encode(x)) == x` for the table `train` learns from any corpus. */
  lemma RoundTrip(corpus: seq<Byte>, vocabSize: int, text: seq<Byte>)
    ensures var es := Learn(corpus, vocabSize).rules;
      WellFormed(IdPairsOf(es)) &&
      Flatten(IdPairsOf(es), EncodeFrom(text, RanksOf(es), MergeDict(es))) == text
  {
    LearnedTable(corpus, vocabSize);
    TrainedRoundTrip(Learn(corpus, vocabSize).rules, text);
  }
}
