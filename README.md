# BPE tokenizer, modelled in Dafny

A model of `BPETokenizer` in `bpe.py`. It is a byte-level Byte-Pair-Encoding
tokenizer that does five things:

- **train**: learns an ordered table of merge rules `(pair, new_id)` from a
  corpus;
- **encode**: turns text into token ids by applying the rules;
- **decode**: expands ids back into bytes;
- **save**: writes the table as an ordered list of entries;
- **load**: rebuilds the table from that list.

Text enters and leaves as its UTF-8 bytes.

Modules, one per file, in dependency order:

- `PairCounting` (`pairs.dfy`): `_find_common_pairs`, as a loop proved
  against a counts map and against the counter's key order (first
  occurrence). Also the "most frequent pair" choice made by `max` at
  bpe.py:20: among pairs of greatest count, the one that occurs first.
- `MergePass` (`merge.dfy`): `_merge_tokens`, as an index loop proved
  against the recursive function `Merge`, with the shape properties of a
  merge pass.
- `RuleTable` (`table.dfy`): the derived fields, each a function of
  `merges`. `merge_ranks`, `id_to_pair`, `vocab` and `next_id` are computed
  the way `load` rebuilds them (bpe.py:69-81); `dict(merges)` is computed the
  way `dict()` builds it in `encode` (bpe.py:40), the last entry for a pair
  winning. Lemmas describe the table a fresh training produces.
- `Decoding` (`decode.dfy`): `decode_token` and `_decode_token_to_bytes` (the
  same recursion). The central fact: a merge pass does not change the bytes
  a list decodes to.
- `Training` (`train.dfy`): the training loop as a function of the corpus
  bytes and `vocab_size`, with its stop conditions, its choices, and the
  shape of the table it learns.
- `Encoding` (`encode.dfy`): the encoding loop as a function. It proves the
  fixpoint property and the byte-level round trip `decode(encode(x)) == x`
  for any table training produces.
- `Bpe` (`tokenizer.dfy`): the class, with the six fields of the Python
  object. `train`, `encode` and `load` are methods that update the fields in
  place, each proved against the functions above. `Valid()` says the four
  derived fields are exactly what `load` would rebuild from `merges`.

Two facts about the code's training loop that the model keeps:

- Training stops only when the vocabulary is full or fewer than two tokens
  remain. A pair that occurs once is still merged (bpe.py:16-19). Training
  does not stop when no pair occurs twice.
- A tie for the highest count goes to the pair that occurs first in the
  token list. This follows `defaultdict` insertion order and `max` keeping
  its first maximum (bpe.py:17-20). Ties are not broken lexicographically.

## Model

| member | source | states |
|---|---|---|
| PairCounting.Pairs | bpe.py:85-86 | the adjacent pairs of a list: one per position `i < len-1`, equal to `(t[i], t[i+1])` |
| PairCounting.Distinct | bpe.py:84-87 | the counter's keys in insertion order: exactly the pairs that occur, without repetition |
| PairCounting.FirstMaxIndex | bpe.py:20 | `max(pairs.items(), key=count)`: an index of greatest count, with every earlier key strictly less frequent |
| PairCounting.MostFrequent | bpe.py:17-20 | the pair training picks occurs in the token list |
| PairCounting.MostFrequentIsFirstMaximal | bpe.py:17-20 | the picked pair occurs, no pair occurs more often, and every pair that occurs as often first occurs no earlier |
| PairCounting.FirstMaxIsFirstMaximal | bpe.py:20 | the first key of greatest count in first-occurrence order is the first maximal pair of the list |
| PairCounting.TieComesLater | bpe.py:20 | a pair tied with the chosen one first occurs at or after the chosen one's first occurrence |
| PairCounting.DistinctPrefix | bpe.py:84-87 | the keys counted over a prefix are a prefix of the keys counted over the whole list |
| PairCounting.CountMap | bpe.py:84-87 | the definition of the counter's values: each occurring pair mapped to its number of occurrences; no contract of its own: CountMapSnoc, CountsSum and FindCommonPairs state its properties |
| PairCounting.CountMapSnoc | bpe.py:86-87 | counting one more position adds one to that pair's count, creating it at one |
| PairCounting.CountsSum | bpe.py:83-88 | the counts add up to the number of positions, `max(len(t)-1, 0)` |
| PairCounting.FindCommonPairs | bpe.py:83-88 | the loop's counter maps each pair to its number of occurrences, its keys come in first-occurrence order, and it is empty exactly when the list has fewer than two tokens |
| MergePass.Merge | bpe.py:90-100 | the merge pass never lengthens the list, and shortens it exactly when the pair occurs |
| MergePass.MergeTokens | bpe.py:90-100 | the index loop computes the left-to-right non-overlapping merge pass |
| MergePass.MergeAt | bpe.py:93-99 | one loop step: a match emits the new id and skips two tokens, anything else is copied and skips one |
| MergePass.MergeUnchangedIff | bpe.py:90-100 | the pass returns its input unchanged if and only if the pair does not occur |
| MergePass.MergeExamples | bpe.py:90-100 | `[a,b,a,b]` with `(a,b)` becomes `[X,X]`; `[a,a,a]` with `(a,a)` becomes `[X,a]` |
| MergePass.MergeCountsReplacements | bpe.py:94-96 | with a new id that did not occur before, the list shrinks by exactly the number of replacements made |
| MergePass.MergeTokensFrom | bpe.py:95-98 | every output token is the new id or an input token |
| MergePass.MergeAvoids | bpe.py:90-100 | a pair absent before, or the merged pair itself, is absent afterwards, provided the new id is not a component of it |
| MergePass.PairsOfSuffix | bpe.py:85-86 | the pairs of a suffix are pairs of the whole list |
| MergePass.MergeRemovesPair | bpe.py:90-100 | if the new id did not occur before, the merged pair no longer occurs adjacently |
| RuleTable.RanksOf | bpe.py:74-79 | `merge_ranks` has exactly the pairs of the entries as keys |
| RuleTable.RanksOfSpec | bpe.py:74-79 | each pair's rank is the index of its last entry (last duplicate wins) |
| RuleTable.MergeDict | bpe.py:40 | `dict(merges)` has exactly the pairs of the entries as keys |
| RuleTable.MergeDictSpec | bpe.py:40 | `dict(merges)` gives each pair the new id of its last entry |
| RuleTable.IdPairsOf | bpe.py:73-80 | the definition of `id_to_pair` as `load` rebuilds it; no contract of its own: IdPairsOfSpec and TrainedIdPairs state its properties |
| RuleTable.IdPairsOfSpec | bpe.py:74-80 | `id_to_pair` has exactly the new ids as keys, each mapped to the pair of its last entry |
| RuleTable.VocabOf | bpe.py:70-78 | the definition of `vocab` as `load` rebuilds it; no contract of its own: VocabOfSpec, VocabSnoc and TrainedVocab state its properties |
| RuleTable.VocabOfSpec | bpe.py:70-78 | `vocab` is the 256 byte ids together with every new id |
| RuleTable.NextIdOf | bpe.py:71-81 | the definition of `next_id` as `load` rebuilds it; no contract of its own: NextIdOfSpec and TrainedNextId state its properties |
| RuleTable.NextIdOfSpec | bpe.py:71-81 | `next_id` is at least 256, above every new id, and equal to 256 or to some new id plus one |
| RuleTable.RangeSnoc | bpe.py:7 | the ids below `n + 1` are those below `n` plus `n` |
| RuleTable.RangeSize | bpe.py:7 | `range(n)` has `n` elements |
| RuleTable.TableSnoc | bpe.py:74-81 | appending one entry updates every derived field the way one iteration of `load` does |
| RuleTable.MintedSnoc | bpe.py:21-22 | appending the rule for id `256 + len(merges)` keeps ids minted in order |
| RuleTable.TrainedIdPairs | bpe.py:21-25 | on a table minted in order, `id_to_pair[256+k]` is the k-th pair and no other id is known |
| RuleTable.TrainedVocab | bpe.py:21-23 | on a table minted in order, `vocab` is exactly the ids below `256 + len(merges)`, so it has that many elements |
| RuleTable.VocabSnoc | bpe.py:16-23 | minting the next id grows the vocabulary by exactly one |
| RuleTable.TrainedNextId | bpe.py:21-26 | on a table minted in order, `next_id` as `load` recomputes it is `256 + len(merges)` |
| RuleTable.TrainedRanks | bpe.py:24 | without repeated pairs, `merge_ranks` gives the k-th rule rank k |
| Decoding.FlattenAppend | bpe.py:54-56 | decoding a concatenation concatenates the decodings |
| Decoding.FlattenBytes | bpe.py:48-49 | ids below 256 decode to themselves, whatever the table |
| Decoding.MergePreservesExpansion | bpe.py:47-56 | merging a pair into an id that `id_to_pair` maps to that pair leaves the decoded bytes unchanged |
| Decoding.TrainedWellFormed | bpe.py:21-25 | in a trained table both components of every pair are smaller than its id, so `decode_token` terminates |
| Decoding.Expand | bpe.py:47-53 | the definition of `decode_token` (and of its duplicate `_decode_token_to_bytes`, bpe.py:133-142); no contract of its own: FlattenBytes, MergePreservesExpansion, TrainedExpansionLength and ExpandExtension state its properties |
| Decoding.Flatten | bpe.py:54-56 | the definition of the byte list `decode` builds token by token; no contract of its own: FlattenAppend, FlattenBytes, MergePreservesExpansion and EncodePreservesBytes state its properties |
| Decoding.TrainedExpansionLength | bpe.py:133-142 | in a trained table a byte id expands to one byte and every minted id to at least two |
| Decoding.FlattenExtension | bpe.py:47-56 | adding the rule for a fresh id does not change how older tokens decode |
| Decoding.ExpandExtension | bpe.py:47-53 | the same for a single token |
| Training.LearnFrom | bpe.py:16-27 | the definition of the training loop from a given working list and table; no contract of its own: LearnFromStops, LearnFromUnfold, LearnFromProgress, LearnFromBounds, LearnFromChoice and LearnFromKeepsBytes state its properties |
| Training.Learn | bpe.py:13-27 | the definition of `train` from a fresh instance on the corpus bytes; no contract of its own: LearnedTable, TrainingKeepsBytes and RoundTrip state its properties |
| Training.LearnFromStops | bpe.py:16-19 | training stops, unchanged, once the vocabulary is full or fewer than two tokens remain |
| Training.LearnFromUnfold | bpe.py:16-27 | otherwise one step records the most frequent pair under the next id and merges it |
| Training.LearnStep | bpe.py:17-27 | one step keeps the rules minted in order from smaller ids, their pairs distinct, every token below the next id, and no learned pair present in the working list |
| Training.LearnFromProgress | bpe.py:16-27 | the whole loop keeps those facts |
| Training.LearnFromBounds | bpe.py:16-27 | training only appends rules, at most one per token beyond the first, none once the vocabulary is full, and stops early only without pairs |
| Training.LearnedTable | bpe.py:13-27 | from a fresh instance the learned table is minted in order, has distinct pairs and at most `len(bytes)-1` rules, has none when `vocab_size <= 256`, and ends full or with fewer than two tokens |
| Training.LearnFromChoice | bpe.py:17-22 | each learned rule's pair was the most frequent in the working list at that step, ties going to the first to occur |
| Training.LearnFromKeepsBytes | bpe.py:16-27 | the working list always decodes, under the rules learned so far, to what it decoded to before |
| Training.TrainingKeepsBytes | bpe.py:13-27 | after training, the final working list decodes to the corpus bytes |
| Encoding.Known | bpe.py:32-35 | the candidates are exactly the counted pairs that `merge_ranks` knows |
| Encoding.FirstMinIndex | bpe.py:39 | `min(candidates, key=rank)`: an index of least rank, with every earlier candidate strictly higher |
| Encoding.EncodeFrom | bpe.py:31-41 | the definition of the encoding loop; no contract of its own: EncodeFixpoint, EncodeUnchangedIff, EncodeEmptyTable, EncodeStep and EncodePreservesBytes state its properties |
| Encoding.EncodeFixpoint | bpe.py:31-44 | on return no adjacent pair of the result is a key of `merge_ranks` |
| Encoding.EncodeUnchangedIff | bpe.py:31-44 | encoding never lengthens the list, and leaves it unchanged if and only if no adjacent pair is ranked |
| Encoding.EncodeEmptyTable | bpe.py:29-44 | with an empty table the result is exactly the input bytes |
| Encoding.EncodePreservesBytes | bpe.py:29-57 | encoding with a sound table does not change the decoded bytes |
| Encoding.RanksInjective | bpe.py:79 | distinct pairs have distinct ranks |
| Encoding.EncodeStep | bpe.py:39-41 | each step merges the present ranked pair of least rank, wherever it occurs |
| Encoding.TrainedSound | bpe.py:21-40 | for a trained table every ranked pair is merged into an id that `id_to_pair` maps back to it |
| Encoding.TrainedRoundTrip | bpe.py:29-57 | with a trained table, decoding the encoding of any bytes gives the bytes back |
| Encoding.RoundTrip | bpe.py:13-57 | byte-level `decode(encode(x)) == x` for the table trained on any corpus with any `vocab_size` |
| Bpe.BPETokenizer.constructor | bpe.py:5-11 | a new tokenizer has an empty table, the 256 byte ids as vocabulary and `next_id` 256 |
| Bpe.BPETokenizer.Train | bpe.py:13-27 | on a fresh instance the loop learns exactly the rules of the training function, minted in order with distinct pairs. All derived fields match `merges`, and `vocab` and `next_id` both reach `256 + len(merges)` |
| Bpe.BPETokenizer.Record | bpe.py:21-26 | recording a rule appends it under id `256 + len(merges)` and keeps every derived field and the vocabulary size in step |
| Bpe.BPETokenizer.Encode | bpe.py:29-44 | the loop computes the encoding function with `merge_ranks` and `dict(merges)`, and stores the result in `encoded_tokens` |
| Bpe.BPETokenizer.Decode | bpe.py:46-57 | the bytes are the expansions of the tokens, concatenated in order |
| Bpe.BPETokenizer.Save | bpe.py:59-64 | the saved entries are `merges`, in rank order |
| Bpe.BPETokenizer.Load | bpe.py:66-81 | loading makes `merges` equal to the entries and rebuilds every derived field from them |
| Bpe.SaveThenLoad | bpe.py:59-81 | loading what was saved reproduces `merges`, `merge_ranks`, `id_to_pair`, `vocab` and `next_id` |
| Bpe.TrainEncodeDecode | bpe.py:13-57 | train, encode, decode: the text's bytes come back, the encoding is no longer than the text, and no learned pair is left adjacent in it |

## Left out

- UTF-8 conversion of `str` (bpe.py:14, 30) and `decode('utf-8', errors='replace')` (bpe.py:57): text is modelled as its bytes, and the replacement-character decoding is library code.
- Bpe.BPETokenizer.Decode: returns the byte sequence before that UTF-8 decoding, and requires a table whose pairs are built from smaller ids. Two kinds of table loaded from an arbitrary file are excluded by that requirement: a cyclic table, on which bpe.py:47-53 raises `RecursionError` for any token whose expansion reaches the cycle (other tokens decode normally, but the requirement excludes the whole table), and an acyclic table with a pair component larger than its id (for example 300→(400,97) with 400→(97,98)), which bpe.py:47-53 decodes without trouble. Neither can come out of `train`, and the model does not decode the second kind.
- Bpe.BPETokenizer.Train: requires a fresh instance. The source resets `next_id` to 256 (bpe.py:15) without clearing the table, so a second `train` re-mints ids already in use; that behaviour is not modelled.
- JSON reading and writing in `save` and `load` (bpe.py:63-64, 67-68), with its file and format errors: persistence is modelled as the list of `(pair, new_id)` entries.
- Negative or non-integer ids and pairs that are not 2-element lists from an arbitrary loaded file: ids are natural numbers and pairs are 2-tuples by typing.
- `compression_rate` (bpe.py:102-109): float division and printing.
- `visualize_tokens`, `draw_merge_tree`, `visualize_merge_trees` and `list_tokens` (bpe.py:111-179): printing-only readers of the state. `visualize_tokens` also uses an undefined `tokens` at bpe.py:121.
- use.py and train.py: command-line drivers that only read a file and call the operations above.
- Integer width: Python integers are unbounded, like Dafny's, so no wrap-around applies.
