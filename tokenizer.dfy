/**
 * `BPETokenizer`: the object whose fields `train` and `load` update in place
 * and whose `encode`, `decode` and `save` read them. Text enters and leaves
 * as its UTF-8 bytes.
 */
module Bpe {
  import opened PairCounting
  import opened MergePass
  import opened RuleTable
  import opened Decoding
  import opened Training
  import opened Encoding

  class BPETokenizer {
    /** The learned rules `(pair, new_id)`, in rank order. */
    var merges: seq<Entry>
    var vocab: set<TokenId>
    var nextId: nat
    var mergeRanks: map<Pair, nat>
    var idToPair: map<TokenId, Pair>
    /** The result of the last `encode`, kept for the reporting helpers. */
    var encodedTokens: seq<TokenId>

    /**
     * The derived fields are exactly what `load` rebuilds from `merges`;
     * `train` on a fresh instance and `load` both keep this.
     */
    ghost predicate Valid()
      reads this
    {
      && mergeRanks == RanksOf(merges)
      && idToPair == IdPairsOf(merges)
      && vocab == VocabOf(merges)
      && nextId == NextIdOf(merges)
    }

    /** No rule learned or loaded yet. */
    ghost predicate Fresh()
      reads this
    {
      merges == [] && vocab == Range(256) && mergeRanks == map[] && idToPair == map[]
    }

    constructor ()
      ensures Fresh() && Valid()
      ensures encodedTokens == []
    {
      merges := [];
      vocab := Range(256);
      nextId := 256;
      mergeRanks := map[];
      idToPair := map[];
      encodedTokens := [];
    }

    /**
     * `train`: from the text's bytes, repeatedly count pairs, record the most
     * frequent under the next id, and merge it, until the vocabulary reaches
     * `vocabSize` or fewer than two tokens are left.
     */
    method Train(text: seq<Byte>, vocabSize: int := 512)
      requires Fresh()
      modifies this
      ensures Valid()
      ensures merges == Learn(text, vocabSize).rules
      ensures Trained(merges) && DistinctPairs(merges)
      ensures nextId == 256 + |merges| && |vocab| == 256 + |merges|
      ensures encodedTokens == old(encodedTokens)
    {
      var tokens: seq<TokenId> := text;
      ghost var learned := Learn(text, vocabSize);
      nextId := 256;
      RangeSize(256);
      while |vocab| < vocabSize
        invariant Valid()
        invariant Minted(merges)
        invariant nextId == 256 + |merges| && |vocab| == 256 + |merges|
        invariant LearnFrom(tokens, vocabSize, merges) == learned
        invariant encodedTokens == old(encodedTokens)
        decreases |tokens|
      {
        var pairs, order := FindCommonPairs(tokens);
        if pairs == map[] {
          break;
        }
        var topPair := order[FirstMaxIndex(order, pairs)];
        assert topPair == MostFrequent(tokens);
        LearnFromUnfold(tokens, vocabSize, merges);
        var newId := Record(topPair);
        tokens := MergeTokens(tokens, topPair, newId);
      }
      LearnFromStops(tokens, vocabSize, merges);
      LearnedTable(text, vocabSize);
    }

    /**
     * The body of one `train` step after the pair is chosen: append the rule
     * under `next_id`, add the id to the vocabulary, rank the pair last, map
     * the id to the pair and advance `next_id`.
     */
    method Record(pair: Pair) returns (newId: TokenId)
      requires Valid() && Minted(merges)
      requires nextId == 256 + |merges| && |vocab| == 256 + |merges|
      modifies this
      ensures newId == 256 + |old(merges)|
      ensures merges == old(merges) + [Entry(pair, newId)]
      ensures Valid() && Minted(merges)
      ensures nextId == 256 + |merges| && |vocab| == 256 + |merges|
      ensures encodedTokens == old(encodedTokens)
    {
      newId := nextId;
      var item := Entry(pair, newId);
      var es, ranks, ids, voc := merges, mergeRanks, idToPair, vocab;
      TableSnoc(es, item);
      MintedSnoc(es, item);
      VocabSnoc(es, item);
      merges := es + [item];
      vocab := voc + {newId};
      mergeRanks := ranks[pair := |es|];
      idToPair := ids[newId := pair];
      nextId := newId + 1;
    }

    /**
     * `encode`: from the text's bytes, repeatedly merge the ranked pair of
     * least rank present until none is left; the result is also kept in
     * `encodedTokens`.
     */
    method Encode(text: seq<Byte>) returns (tokens: seq<TokenId>)
      requires Valid()
      modifies `encodedTokens
      ensures tokens == EncodeFrom(text, mergeRanks, MergeDict(merges))
      ensures encodedTokens == tokens
    {
      tokens := text;
      while true
        invariant EncodeFrom(tokens, mergeRanks, MergeDict(merges)) == EncodeFrom(text, mergeRanks, MergeDict(merges))
        decreases |tokens|
      {
        var pairs, order := FindCommonPairs(tokens);
        var candidates := Known(order, mergeRanks);
        if candidates == [] {
          break;
        }
        var bestPair := candidates[FirstMinIndex(candidates, mergeRanks)];
        var newId := MergeDict(merges)[bestPair];
        tokens := MergeTokens(tokens, bestPair, newId);
      }
      encodedTokens := tokens;
    }

    /**
     * `decode` up to the final UTF-8 decoding: the expansions of the tokens,
     * concatenated in order.
     */
    method Decode(tokens: seq<TokenId>) returns (flat: seq<Byte>)
      requires WellFormed(idToPair)
      ensures flat == Flatten(idToPair, tokens)
    {
      flat := [];
      for i := 0 to |tokens|
        invariant flat == Flatten(idToPair, tokens[..i])
      {
        assert tokens[..i + 1] == tokens[..i] + [tokens[i]];
        FlattenAppend(idToPair, tokens[..i], [tokens[i]]);
        flat := flat + Expand(idToPair, tokens[i]);
      }
      assert tokens[..|tokens|] == tokens;
    }

    /** `save`: the rules in rank order, one `(pair, new_id)` entry each. */
    method Save() returns (entries: seq<Entry>)
      ensures entries == merges
    {
      entries := merges;
    }

    /**
     * `load`: reset the table, then for each entry in order append it, add
     * its id to the vocabulary, rank its pair by position, map its id to its
     * pair and raise `nextId` past its id.
     */
    method Load(entries: seq<Entry>)
      modifies this
      ensures merges == entries && Valid()
      ensures encodedTokens == old(encodedTokens)
    {
      merges := [];
      vocab := Range(256);
      nextId := 256;
      mergeRanks := map[];
      idToPair := map[];
      for idx := 0 to |entries|
        invariant merges == entries[..idx] && Valid()
        invariant encodedTokens == old(encodedTokens)
      {
        var item := entries[idx];
        assert entries[..idx + 1] == entries[..idx] + [item];
        TableSnoc(merges, item);
        merges := merges + [item];
        vocab := vocab + {item.newId};
        mergeRanks := mergeRanks[item.pair := idx];
        idToPair := idToPair[item.newId := item.pair];
        nextId := if nextId > item.newId + 1 then nextId else item.newId + 1;
      }
      assert entries[..|entries|] == entries;
    }
  }

  /** Loading what was saved reproduces the whole table. */
  method SaveThenLoad(src: BPETokenizer, dst: BPETokenizer)
    requires src.Valid()
    modifies dst
    ensures dst.Valid()
    ensures dst.merges == old(src.merges) && dst.mergeRanks == old(src.mergeRanks)
    ensures dst.idToPair == old(src.idToPair) && dst.vocab == old(src.vocab)
    ensures dst.nextId == old(src.nextId)
  {
    var entries := src.Save();
    dst.Load(entries);
  }

  /**
   * Train on a corpus, encode a text and decode the result: the text's bytes
   * come back, whatever the corpus and `vocabSize`.
   */
  method TrainEncodeDecode(corpus: seq<Byte>, vocabSize: int, text: seq<Byte>)
    returns (tokens: seq<TokenId>, decoded: seq<Byte>)
    ensures decoded == text
    ensures |tokens| <= |text|
    ensures forall q :: q in Pairs(tokens) ==> q !in PairsOf(Learn(corpus, vocabSize).rules)
  {
    var tokenizer := new BPETokenizer();
    tokenizer.Train(corpus, vocabSize);
    tokens := tokenizer.Encode(text);
    RoundTrip(corpus, vocabSize, text);
    EncodeFixpoint(text, tokenizer.mergeRanks, MergeDict(tokenizer.merges));
    EncodeUnchangedIff(text, tokenizer.mergeRanks, MergeDict(tokenizer.merges));
    decoded := tokenizer.Decode(tokens);
  }
}
