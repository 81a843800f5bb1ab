/**
 * The training loop of `BPETokenizer.train`, as a function of the corpus
 * bytes and `vocab_size`, for an instance whose table starts empty.
 */
module Training {
  import opened PairCounting
  import opened MergePass
  import opened RuleTable
  import opened Decoding

  /** The rules learned and the working token list when training stops. */
  datatype Outcome = Outcome(rules: seq<Entry>, tokens: seq<TokenId>)

  /**
   * Training from working list `tokens` with `rules` already learned: stop
   * once the vocabulary (256 byte ids plus one per rule) reaches `vocabSize`
   * or no pair is left; otherwise learn the most frequent pair under the next
   * id and merge it. A pair that occurs once is still merged.
   */
  function LearnFrom(tokens: seq<TokenId>, vocabSize: int, rules: seq<Entry>): Outcome
    decreases |tokens|
  {
    if 256 + |rules| >= vocabSize || |tokens| < 2 then Outcome(rules, tokens)
    else
      var top := MostFrequent(tokens);
      var id := 256 + |rules|;
      LearnFrom(Merge(tokens, top, id), vocabSize, rules + [Entry(top, id)])
  }

  /** Training stops, returning its state, once the vocabulary is full or no pair is left. */
  lemma LearnFromStops(tokens: seq<TokenId>, vocabSize: int, rules: seq<Entry>)
    ensures 256 + |rules| >= vocabSize || |tokens| < 2 ==> LearnFrom(tokens, vocabSize, rules) == Outcome(rules, tokens)
  {
  }

  /** One step of training, when neither stop condition holds. */
  lemma LearnFromUnfold(tokens: seq<TokenId>, vocabSize: int, rules: seq<Entry>)
    requires 256 + |rules| < vocabSize && |tokens| >= 2
    ensures LearnFrom(tokens, vocabSize, rules)
         == LearnFrom(Merge(tokens, MostFrequent(tokens), 256 + |rules|), vocabSize,
                      rules + [Entry(MostFrequent(tokens), 256 + |rules|)])
  {
  }

  /** `train(text, vocab_size)` on a fresh instance, `corpus` being the text's bytes. */
  function Learn(corpus: seq<Byte>, vocabSize: int): Outcome
  {
    LearnFrom(corpus, vocabSize, [])
  }

  /**
   * What holds of the working state between two steps: the rules learned so
   * far are trained-shaped with distinct pairs, every token is an id minted
   * already, and no learned pair occurs in the working list any more.
   */
  ghost predicate Progress(tokens: seq<TokenId>, rules: seq<Entry>)
  {
    && Trained(rules)
    && DistinctPairs(rules)
    && (forall x :: x in tokens ==> x < 256 + |rules|)
    && (forall k :: 0 <= k < |rules| ==> rules[k].pair !in Pairs(tokens))
  }

  /** One training step keeps Progress. */
  lemma LearnStep(tokens: seq<TokenId>, rules: seq<Entry>)
    requires Progress(tokens, rules) && |tokens| >= 2
    ensures Progress(Merge(tokens, MostFrequent(tokens), 256 + |rules|),
                     rules + [Entry(MostFrequent(tokens), 256 + |rules|)])
  {
    var top := MostFrequent(tokens);
    var id := 256 + |rules|;
    var next := Merge(tokens, top, id);
    var rules' := rules + [Entry(top, id)];
    var ps := Pairs(tokens);
    var i :| 0 <= i < |ps| && ps[i] == top;
    assert ps[i] == (tokens[i], tokens[i + 1]);
    assert tokens[i] in tokens && tokens[i + 1] in tokens;
    assert Trained(rules');
    forall k | 0 <= k < |rules| ensures rules[k].pair != top {
    }
    assert DistinctPairs(rules');
    MergeTokensFrom(tokens, top, id);
    forall k | 0 <= k < |rules'| ensures rules'[k].pair !in Pairs(next) {
      if k == |rules| {
        MergeAvoids(tokens, top, id, top);
      } else {
        MergeAvoids(tokens, top, id, rules[k].pair);
      }
    }
  }

  /** Training from a state satisfying Progress ends in one. */
  lemma {:induction false} LearnFromProgress(tokens: seq<TokenId>, vocabSize: int, rules: seq<Entry>)
    requires Progress(tokens, rules)
    ensures Progress(LearnFrom(tokens, vocabSize, rules).tokens, LearnFrom(tokens, vocabSize, rules).rules)
    decreases |tokens|
  {
    if !(256 + |rules| >= vocabSize || |tokens| < 2) {
      var top := MostFrequent(tokens);
      var id := 256 + |rules|;
      LearnStep(tokens, rules);
      LearnFromProgress(Merge(tokens, top, id), vocabSize, rules + [Entry(top, id)]);
    }
  }

  /**
   * Training only appends rules, at most one per token beyond the first, none
   * once the vocabulary is full, and it stops early only without pairs left.
   */
  lemma {:induction false} LearnFromBounds(tokens: seq<TokenId>, vocabSize: int, rules: seq<Entry>)
    ensures var r := LearnFrom(tokens, vocabSize, rules);
      && rules <= r.rules
      && |r.rules| <= |rules| + (if |tokens| < 2 then 0 else |tokens| - 1)
      && (256 + |rules| >= vocabSize ==> r.rules == rules)
      && (256 + |r.rules| >= vocabSize || |r.tokens| < 2)
    decreases |tokens|
  {
    if !(256 + |rules| >= vocabSize || |tokens| < 2) {
      var top := MostFrequent(tokens);
      var id := 256 + |rules|;
      var rules' := rules + [Entry(top, id)];
      LearnFromBounds(Merge(tokens, top, id), vocabSize, rules');
      assert rules <= rules';
    }
  }

  /**
   * The table training learns: the k-th rule mints id 256 + k from ids below
   * it, no pair is learned twice, at most len(bytes) - 1 rules are learned and
   * none when vocab_size <= 256, and training only stops early when fewer than
   * two tokens are left.
   */
  lemma LearnedTable(corpus: seq<Byte>, vocabSize: int)
    ensures var r := Learn(corpus, vocabSize);
      && Trained(r.rules)
      && DistinctPairs(r.rules)
      && |r.rules| <= (if |corpus| < 2 then 0 else |corpus| - 1)
      && (vocabSize <= 256 ==> r.rules == [])
      && (256 + |r.rules| >= vocabSize || |r.tokens| < 2)
  {
    LearnFromProgress(corpus, vocabSize, []);
    LearnFromBounds(corpus, vocabSize, []);
  }

  /**
   * Each rule's pair was the most frequent (first on a tie) in the working
   * list at the moment it was learned.
   */
  lemma {:induction false} LearnFromChoice(tokens: seq<TokenId>, vocabSize: int, rules: seq<Entry>)
    ensures var r := LearnFrom(tokens, vocabSize, rules);
      |r.rules| > |rules| ==> |tokens| >= 2 && r.rules[|rules|].pair == MostFrequent(tokens)
                              && IsFirstMaximal(Pairs(tokens), r.rules[|rules|].pair)
    decreases |tokens|
  {
    if !(256 + |rules| >= vocabSize || |tokens| < 2) {
      var top := MostFrequent(tokens);
      var id := 256 + |rules|;
      MostFrequentIsFirstMaximal(tokens);
      LearnFromBounds(Merge(tokens, top, id), vocabSize, rules + [Entry(top, id)]);
    }
  }

  /** Training's working list always decodes, under the rules learned so far, to the corpus. */
  lemma {:induction false} LearnFromKeepsBytes(tokens: seq<TokenId>, vocabSize: int, rules: seq<Entry>)
    requires Progress(tokens, rules)
    ensures var r := LearnFrom(tokens, vocabSize, rules);
      WellFormed(IdPairsOf(rules)) && WellFormed(IdPairsOf(r.rules)) &&
      Flatten(IdPairsOf(r.rules), r.tokens) == Flatten(IdPairsOf(rules), tokens)
    decreases |tokens|
  {
    TrainedWellFormed(rules);
    LearnFromProgress(tokens, vocabSize, rules);
    if !(256 + |rules| >= vocabSize || |tokens| < 2) {
      var top := MostFrequent(tokens);
      var id := 256 + |rules|;
      var rules' := rules + [Entry(top, id)];
      LearnStep(tokens, rules);
      TrainedWellFormed(rules');
      LearnFromKeepsBytes(Merge(tokens, top, id), vocabSize, rules');
      TrainedIdPairs(rules');
      MergePreservesExpansion(IdPairsOf(rules'), tokens, top, id);
      FlattenExtension(rules, id, top, tokens);
    }
  }

  /** After training, the final working list decodes to the corpus. */
  lemma TrainingKeepsBytes(corpus: seq<Byte>, vocabSize: int)
    ensures var r := Learn(corpus, vocabSize);
      WellFormed(IdPairsOf(r.rules)) && Flatten(IdPairsOf(r.rules), r.tokens) == corpus
  {
    LearnFromKeepsBytes(corpus, vocabSize, []);
    FlattenBytes(IdPairsOf([]), corpus);
  }
}
