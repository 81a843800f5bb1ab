/**
 * The merge pass (`BPETokenizer._merge_tokens`): scan a token list left to
 * right and replace every non-overlapping occurrence of one pair by a new id.
 * A match consumes both of its tokens, so `[a, a, a]` with `(a, a)` becomes
 * `[X, a]`.
 */
module MergePass {
  import opened PairCounting

  /** The list a merge pass of `p` into `id` produces from `t`. */
  function Merge(t: seq<TokenId>, p: Pair, id: TokenId): (r: seq<TokenId>)
    ensures |r| <= |t|
    ensures |r| < |t| <==> p in Pairs(t)
  {
    if |t| >= 2 && (t[0], t[1]) == p then [id] + Merge(t[2..], p, id)
    else if t == [] then []
    else [t[0]] + Merge(t[1..], p, id)
  }

  /**
   * `_merge_tokens`: an index walks the list; a match appends the new id and
   * skips two tokens, anything else is copied and skips one.
   */
  method MergeTokens(tokens: seq<TokenId>, pair: Pair, newId: TokenId) returns (newTokens: seq<TokenId>)
    ensures newTokens == Merge(tokens, pair, newId)
  {
    newTokens := [];
    var i := 0;
    while i < |tokens|
      invariant 0 <= i <= |tokens|
      invariant newTokens + Merge(tokens[i..], pair, newId) == Merge(tokens, pair, newId)
    {
      if i < |tokens| - 1 && (tokens[i], tokens[i + 1]) == pair {
        MergeAt(tokens, i, pair, newId, newTokens);
        newTokens := newTokens + [newId];
        i := i + 2;
      } else {
        MergeAt(tokens, i, pair, newId, newTokens);
        newTokens := newTokens + [tokens[i]];
        i := i + 1;
      }
    }
    assert tokens[i..] == [];
  }

  /**
   * One step of the pass from index `i`, with `done` already produced: a
   * match yields the new id and resumes two tokens on, anything else is
   * copied and the pass resumes one token on.
   */
  lemma MergeAt(t: seq<TokenId>, i: nat, p: Pair, id: TokenId, done: seq<TokenId>)
    requires i < |t|
    ensures done + Merge(t[i..], p, id)
         == if i < |t| - 1 && (t[i], t[i + 1]) == p then (done + [id]) + Merge(t[i + 2..], p, id)
            else (done + [t[i]]) + Merge(t[i + 1..], p, id)
  {
    var rest := t[i..];
    if i < |t| - 1 && (t[i], t[i + 1]) == p {
      assert rest[2..] == t[i + 2..];
      assert done + ([id] + Merge(t[i + 2..], p, id)) == (done + [id]) + Merge(t[i + 2..], p, id);
    } else {
      assert rest[1..] == t[i + 1..];
      assert done + ([t[i]] + Merge(t[i + 1..], p, id)) == (done + [t[i]]) + Merge(t[i + 1..], p, id);
    }
  }

  /** A pass changes the list exactly when the pair occurs in it. */
  lemma {:induction false} MergeUnchangedIff(t: seq<TokenId>, p: Pair, id: TokenId)
    ensures Merge(t, p, id) == t <==> p !in Pairs(t)
  {
    if p !in Pairs(t) && t != [] {
      MergeUnchangedIff(t[1..], p, id);
    }
  }

  /** The two worked examples: `[a,b,a,b]` becomes `[X,X]`, `[a,a,a]` becomes `[X,a]`. */
  lemma MergeExamples(a: TokenId, b: TokenId, x: TokenId)
    ensures Merge([a, b, a, b], (a, b), x) == [x, x]
    ensures Merge([a, a, a], (a, a), x) == [x, a]
  {
    assert [a, b, a, b][2..] == [a, b];
    assert [a, a, a][2..] == [a];
  }

  /**
   * Each replacement turns two tokens into one new id: when the new id did
   * not occur before, the list shrinks by exactly the number of its
   * occurrences afterwards.
   */
  lemma {:induction false} MergeCountsReplacements(t: seq<TokenId>, p: Pair, id: TokenId)
    requires id !in t
    ensures |t| - |Merge(t, p, id)| == multiset(Merge(t, p, id))[id]
  {
    if |t| >= 2 && (t[0], t[1]) == p {
      assert forall y :: y in t[2..] ==> y in t;
      MergeCountsReplacements(t[2..], p, id);
      assert multiset([id] + Merge(t[2..], p, id)) == multiset([id]) + multiset(Merge(t[2..], p, id));
    } else if t != [] {
      assert forall y :: y in t[1..] ==> y in t;
      MergeCountsReplacements(t[1..], p, id);
      assert t[0] in t;
      assert multiset([t[0]] + Merge(t[1..], p, id)) == multiset([t[0]]) + multiset(Merge(t[1..], p, id));
    }
  }

  /** Every token of the result is the new id or a token of the input. */
  lemma {:induction false} MergeTokensFrom(t: seq<TokenId>, p: Pair, id: TokenId)
    ensures forall y :: y in Merge(t, p, id) ==> y in t || y == id
  {
    if |t| >= 2 && (t[0], t[1]) == p {
      MergeTokensFrom(t[2..], p, id);
    } else if t != [] {
      MergeTokensFrom(t[1..], p, id);
    }
  }

  /**
   * A pass leaves no adjacent pair `q` behind when `q` is the merged pair or
   * was absent before, provided the new id is neither component of `q`.
   */
  lemma {:induction false} MergeAvoids(t: seq<TokenId>, p: Pair, id: TokenId, q: Pair)
    requires id != q.0 && id != q.1
    requires q == p || q !in Pairs(t)
    ensures q !in Pairs(Merge(t, p, id))
  {
    if |t| >= 2 && (t[0], t[1]) == p {
      PairsOfSuffix(t, 2);
      MergeAvoids(t[2..], p, id, q);
    } else if t != [] {
      PairsOfSuffix(t, 1);
      MergeAvoids(t[1..], p, id, q);
    }
  }

  /** The pairs of a suffix are pairs of the whole list. */
  lemma PairsOfSuffix(t: seq<TokenId>, n: nat)
    requires n <= |t|
    ensures forall q :: q in Pairs(t[n..]) ==> q in Pairs(t)
  {
    forall q | q in Pairs(t[n..]) ensures q in Pairs(t) {
      var ps := Pairs(t[n..]);
      var i :| 0 <= i < |ps| && ps[i] == q;
      assert ps[i] == (t[n..][i], t[n..][i + 1]) == (t[n + i], t[n + i + 1]);
      assert Pairs(t)[n + i] == q;
    }
  }

  /** If the new id did not occur, the merged pair no longer occurs afterwards. */
  lemma MergeRemovesPair(t: seq<TokenId>, p: Pair, id: TokenId)
    requires id !in t
    ensures p !in Pairs(Merge(t, p, id))
  {
    if p in Pairs(t) {
      var ps := Pairs(t);
      var i :| 0 <= i < |ps| && ps[i] == p;
      assert ps[i] == (t[i], t[i + 1]);
      assert t[i] in t && t[i + 1] in t;
      MergeAvoids(t, p, id, p);
    } else {
      MergeUnchangedIff(t, p, id);
    }
  }
}
