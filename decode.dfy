/**
 * Decoding: expanding token ids back into bytes through `id_to_pair`
 * (`decode_token` inside `BPETokenizer.decode`, and its duplicate
 * `BPETokenizer._decode_token_to_bytes`, which is the same recursion).
 */
module Decoding {
  import opened PairCounting
  import opened MergePass
  import opened RuleTable

  /**
   * Every composite id the table knows is built from two strictly smaller
   * ids, so the id-to-pair relation is a forest and expansion terminates.
   * Ids below 256 are never looked up, so their entries do not matter.
   */
  ghost predicate WellFormed(idToPair: map<TokenId, Pair>)
  {
    forall id :: id in idToPair && id >= 256 ==> idToPair[id].0 < id && idToPair[id].1 < id
  }

  /**
   * `decode_token`: an id below 256 is its own byte; a known composite id is
   * the expansion of its left then its right component; an unknown composite
   * id contributes nothing.
   */
  function Expand(idToPair: map<TokenId, Pair>, t: TokenId): seq<Byte>
    requires WellFormed(idToPair)
    decreases t
  {
    if t < 256 then [t]
    else if t in idToPair then Expand(idToPair, idToPair[t].0) + Expand(idToPair, idToPair[t].1)
    else []
  }

  /** The bytes of a token list: the expansions of its tokens, concatenated in order. */
  function Flatten(idToPair: map<TokenId, Pair>, tokens: seq<TokenId>): seq<Byte>
    requires WellFormed(idToPair)
  {
    if tokens == [] then [] else Expand(idToPair, tokens[0]) + Flatten(idToPair, tokens[1..])
  }

  /** Decoding a concatenation concatenates the decodings. */
  lemma {:induction false} FlattenAppend(m: map<TokenId, Pair>, a: seq<TokenId>, b: seq<TokenId>)
    requires WellFormed(m)
    ensures Flatten(m, a + b) == Flatten(m, a) + Flatten(m, b)
  {
    if a != [] {
      assert (a + b)[1..] == a[1..] + b;
      FlattenAppend(m, a[1..], b);
    } else {
      assert a + b == b;
    }
  }

  /** Raw byte ids decode to themselves, whatever the table. */
  lemma {:induction false} FlattenBytes(m: map<TokenId, Pair>, bytes: seq<Byte>)
    requires WellFormed(m)
    ensures Flatten(m, bytes) == bytes
  {
    if bytes != [] {
      FlattenBytes(m, bytes[1..]);
    }
  }

  /**
   * The central fact: merging `p` into an id that the table expands as `p`
   * leaves the decoded bytes unchanged.
   */
  lemma {:induction false} MergePreservesExpansion(m: map<TokenId, Pair>, t: seq<TokenId>, p: Pair, id: TokenId)
    requires WellFormed(m)
    requires id >= 256 && id in m && m[id] == p
    ensures Flatten(m, Merge(t, p, id)) == Flatten(m, t)
  {
    if |t| >= 2 && (t[0], t[1]) == p {
      MergePreservesExpansion(m, t[2..], p, id);
      assert t[1..][1..] == t[2..];
    } else if t != [] {
      MergePreservesExpansion(m, t[1..], p, id);
    }
  }

  /** A trained table is well formed: decoding with it always terminates. */
  lemma TrainedWellFormed(es: seq<Entry>)
    requires Trained(es)
    ensures WellFormed(IdPairsOf(es))
  {
    TrainedIdPairs(es);
    forall id | id in IdPairsOf(es) && id >= 256
      ensures IdPairsOf(es)[id].0 < id && IdPairsOf(es)[id].1 < id
    {
      assert IdPairsOf(es)[256 + (id - 256)] == es[id - 256].pair;
    }
  }

  /** In a trained table a byte id stands for one byte and every minted id for at least two. */
  lemma {:induction false} TrainedExpansionLength(es: seq<Entry>, id: TokenId)
    requires Trained(es)
    requires id < 256 + |es|
    ensures WellFormed(IdPairsOf(es))
    ensures id < 256 ==> |Expand(IdPairsOf(es), id)| == 1
    ensures id >= 256 ==> |Expand(IdPairsOf(es), id)| >= 2
    decreases id
  {
    TrainedWellFormed(es);
    if id >= 256 {
      TrainedIdPairs(es);
      var p := IdPairsOf(es)[id];
      assert p == es[id - 256].pair;
      TrainedExpansionLength(es, p.0);
      TrainedExpansionLength(es, p.1);
    }
  }

  /** Adding the rule for a fresh id does not change how older tokens decode. */
  lemma {:induction false} FlattenExtension(rules: seq<Entry>, id: TokenId, p: Pair, tokens: seq<TokenId>)
    requires Trained(rules) && Trained(rules + [Entry(p, id)])
    requires forall x :: x in tokens ==> x < id
    ensures WellFormed(IdPairsOf(rules)) && WellFormed(IdPairsOf(rules + [Entry(p, id)]))
    ensures Flatten(IdPairsOf(rules + [Entry(p, id)]), tokens) == Flatten(IdPairsOf(rules), tokens)
  {
    TrainedWellFormed(rules);
    TrainedWellFormed(rules + [Entry(p, id)]);
    if tokens != [] {
      assert tokens[0] in tokens;
      ExpandExtension(rules, id, p, tokens[0]);
      assert forall x :: x in tokens[1..] ==> x in tokens;
      FlattenExtension(rules, id, p, tokens[1..]);
    }
  }

  /** Adding the rule for a fresh id does not change how an older token decodes. */
  lemma {:induction false} ExpandExtension(rules: seq<Entry>, id: TokenId, p: Pair, t: TokenId)
    requires Trained(rules) && Trained(rules + [Entry(p, id)])
    requires t < id
    ensures WellFormed(IdPairsOf(rules)) && WellFormed(IdPairsOf(rules + [Entry(p, id)]))
    ensures Expand(IdPairsOf(rules + [Entry(p, id)]), t) == Expand(IdPairsOf(rules), t)
    decreases t
  {
    TrainedWellFormed(rules);
    TrainedWellFormed(rules + [Entry(p, id)]);
    var m := IdPairsOf(rules);
    var m' := IdPairsOf(rules + [Entry(p, id)]);
    assert m' == m[id := p];
    if t >= 256 && t in m {
      ExpandExtension(rules, id, p, m[t].0);
      ExpandExtension(rules, id, p, m[t].1);
    }
  }
}
