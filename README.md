# chess-jepa tokenizer and training-sample generator, in Dafny

This project models two files of the chess-jepa repository, a JEPA-style
chess model:

- `chess_jepa/tokenizer.py`. It holds the `Vocabulary` class, the default
  vocabulary it builds, and the `encode`/`decode` pair that turns text made of
  moves, markers and FEN fields into token indices and back.
- `chess_jepa/pgn.py`. It holds `extract_training_samples`, a generator.
  It slides two FIFO buffers of UCI moves (`before` and `after`) over a game.
  At each step it yields one training sample: the `before` buffer, the first
  four FEN fields of the board, the `after` buffer, and padding.

Modules:

| module | file | what it holds |
|---|---|---|
| `Text` | text.dfy | `str.split`, `" ".join`, `"".join`, `str.replace(" ", "")` and their laws |
| `SpecialTokens` | special_tokens.dfy | the padding and start tokens `<_>` and `<start>` |
| `Vocabularies` | vocabulary.dfy | the `Vocabulary` class with its two maps; the pure `Added`/`AddAll` that say what `add_token` does to the token sequence |
| `DefaultVocabulary` | default_vocabulary.dfy | `_initialize_default_vocabulary` as nested loops; its exact contents (4194 tokens) and layout |
| `Tokenizer` | tokenizer.dfy | `encode` as the source's nested loops, proved equal to the pure `EncodeText`; `decode` |
| `TokenizerProperties` | tokenizer_properties.dfy | what encoding and decoding promise over any vocabulary, including the round trip |
| `DefaultEncoding` | default_encoding.dfy | encoding over the default vocabulary: a FEN record takes 74 tokens; which words fail |
| `Pgn` | pgn.dfy | `extract_training_samples` as its two loops, proved equal to a window-over-a-stream reference |
| `PgnProperties` | pgn_properties.dfy | buffer lengths, the fill/slide/drain phases, and the order in which moves are pushed |
| `PgnTokens` | pgn_tokens.dfy | every sample encodes to `2 * window_size + 74` tokens (84 for the default window of 5) |

Python's exceptions become values of `Tokenizer.Result`:

- `AssertionFailed(word)`: `encode` met an unknown word without `/`.
- `KeyNotFound(key)`: `get_index` was called with a token the vocabulary lacks.
- `IndexNotFound(index)`: `get_token` was called with an index the vocabulary lacks.

The python-chess game becomes three parameters:

- `moves`: the main-line moves, as UCI strings.
- `result`: the `Result` header.
- `fens`: `fens[j]` is `board.fen()` once the first `j` moves have been pushed.

The generator's output is the sequence of the strings it yields, in order.

Notes on the code as written, which the model follows:

- A move such as `e2e4` is one token, because all 4096 square pairs are in the vocabulary. It is not split into two squares.
- The start marker and the outcome marker are single words, like the moves. Padding `<_>` has two uses: it fills the `before` buffer ahead of the start marker, and it tops up the `after` side of each sample to `window_size` words (chess_jepa/pgn.py:40, :52).
- A game of `m` moves gives `m + min(m, window_size)` samples, so a game without moves gives none.
- `encode` returns a list of token indices, and the model stops there; turning those indices into bytes belongs to pgn_to_bin.py, which is not part of this model.

## Model

| member | source | states |
|---|---|---|
| `Vocabularies.Vocabulary.constructor` | chess_jepa/tokenizer.py:7-10 | the new vocabulary holds only the padding token, at index 0, in both maps |
| `Vocabularies.Vocabulary.AddToken` | chess_jepa/tokenizer.py:12-16 | adding a token already present changes neither map; a new token gets index `len` in both maps, and the size grows by one; the maps stay mutual inverses (`Valid`) |
| `Vocabularies.Vocabulary.GetIndex` | chess_jepa/tokenizer.py:18-19 | the index of a present token is its position in insertion order (its first occurrence) |
| `Vocabularies.Vocabulary.GetToken` | chess_jepa/tokenizer.py:21-22 | the token at a present index, and `get_index(get_token(i)) == i` |
| `Vocabularies.Vocabulary.Contains` | chess_jepa/tokenizer.py:24-25 | `token in vocab` exactly when the token was added |
| `Vocabularies.Vocabulary.Size` | chess_jepa/tokenizer.py:27-28 | `len(vocab)` is the number of distinct tokens added |
| `Vocabularies.AddedProperties` | chess_jepa/tokenizer.py:12-16 | one `add_token` keeps the tokens distinct; it is a no-op on a present token and appends a new one at index `len` |
| `Vocabularies.ConsistentAdd` | chess_jepa/tokenizer.py:13-16 | giving a new token the next index keeps `token_to_index` and `index_to_token` mutual inverses |
| `Vocabularies.AddAllProperties` | chess_jepa/tokenizer.py:12-16 | a run of `add_token` calls keeps earlier tokens at their indices and holds exactly the old tokens and the added ones |
| `Vocabularies.AddAllFresh` | chess_jepa/tokenizer.py:12-16 | distinct new tokens are appended in call order |
| `Vocabularies.AddAllPresent` | chess_jepa/tokenizer.py:12-16 | re-adding present tokens changes nothing |
| `DefaultVocabulary.InitializeDefaultVocabulary` | chess_jepa/tokenizer.py:51-95 | the loops build exactly `DefaultTokens()`, whose size is 4194 |
| `DefaultVocabulary.AddSquares` | chess_jepa/tokenizer.py:81-83 | the file/rank loop adds the 64 squares in order `a1 .. h8` |
| `DefaultVocabulary.AddSquarePairs` | chess_jepa/tokenizer.py:86-90 | the four nested loops add the 4096 square pairs in loop order |
| `DefaultVocabulary.AddMovesFrom` | chess_jepa/tokenizer.py:88-90 | the two inner loops add the 64 pairs from one source square |
| `DefaultVocabulary.DefaultTokensExplicit` | chess_jepa/tokenizer.py:51-95 | the default vocabulary is 33 core tokens, then 64 squares, then 4096 pairs, then `?` (4194 in all); the re-added `b`, `-`, `K`, `Q`, `k`, `q` take no new index |
| `DefaultVocabulary.SizeWithoutPairs` | tests/test_tokenizer.py:4-5 | without the square-pair loop the same calls would build 98 tokens |
| `DefaultVocabulary.DefaultTokensDistinct` | chess_jepa/tokenizer.py:51-95 | no token of the default vocabulary occurs twice |
| `DefaultVocabulary.DefaultMembership` | chess_jepa/tokenizer.py:51-95 | a string is a default token exactly when it is a core token, a square, a four-character square pair or `?` |
| `DefaultVocabulary.DefaultIndexOf` | chess_jepa/tokenizer.py:14-15 | every default token's index is its position in the explicit list |
| `DefaultVocabulary.DefaultPositions` | chess_jepa/tokenizer.py:55-93 | padding is index 0, the draw marker is 4, `.` is 18, `/` is 19, `e2e4` is 2244 and `?` is 4193 |
| `Tokenizer.Encode` | chess_jepa/tokenizer.py:101-120 | the loops over words, characters and digit runs compute `EncodeText`, including each failure at the word where the source raises |
| `Tokenizer.Decode` | chess_jepa/tokenizer.py:123-127 | decoding through `index_to_token` computes `DecodeTokens`; an index out of range fails |
| `TokenizerProperties.EncodeVocabularyWord` | chess_jepa/tokenizer.py:107-108 | a word that is a token encodes to exactly its own index, even when it holds `/` or digits |
| `TokenizerProperties.EncodeUnknownWord` | chess_jepa/tokenizer.py:109-110 | an unknown word without `/` raises the assertion, carrying that word |
| `TokenizerProperties.EncodeVocabularyWords` | chess_jepa/tokenizer.py:106-108 | a text of tokens encodes to one index per word, in order |
| `TokenizerProperties.EncodeWordsSuccess` | chess_jepa/tokenizer.py:106-119 | encoding succeeds exactly when every word's encoding does |
| `TokenizerProperties.EncodeWordsAppend` | chess_jepa/tokenizer.py:106-119 | encoding two word lists in turn equals encoding their concatenation; the first failure wins |
| `TokenizerProperties.EncodeWordsLength` | chess_jepa/tokenizer.py:106-119 | the output length is the sum of the words' encoding lengths |
| `TokenizerProperties.EncodeCharsSpec` | chess_jepa/tokenizer.py:112-119 | the character fallback succeeds exactly when every character is a token of its own or a digit (a nonzero digit needs `.` in the vocabulary); it gives `d` tokens for digit `d` and one token otherwise |
| `TokenizerProperties.DecodeTokensSpec` | chess_jepa/tokenizer.py:123-127 | decoding succeeds exactly when every index is in range; a failure names an index that is out of range |
| `TokenizerProperties.DecodeAppend` | chess_jepa/tokenizer.py:127 | decoding two index lists in turn glues their texts |
| `TokenizerProperties.DecodeDots` | chess_jepa/tokenizer.py:116-117 | `d` copies of the index of `.` decode to `d` dots |
| `TokenizerProperties.DecodeEncodeChars` | chess_jepa/tokenizer.py:112-119 | decoding a spelled-out word gives it back with each digit `d` as `d` dots |
| `TokenizerProperties.DecodeEncodeWord` | chess_jepa/tokenizer.py:106-127 | decoding one word's encoding gives the word, or its digits spelled out when it is not a token |
| `TokenizerProperties.DecodeEncodeWords` | chess_jepa/tokenizer.py:106-127 | decoding a word list's encoding gives the rendered words glued together |
| `TokenizerProperties.DecodeEncodeText` | chess_jepa/tokenizer.py:101-127 | `decode(encode(s))` is the words of `s` rendered and glued, spaces removed |
| `TokenizerProperties.RoundTripVocabularyWords` | chess_jepa/tokenizer.py:101-127 | for a text of tokens, `encode` succeeds and `decode(encode(s)) == s.replace(" ", "")` |
| `DefaultEncoding.PlacementTokens` | chess_jepa/tokenizer.py:109-119 | a FEN piece placement is spelled out in 71 tokens (64 squares and 7 `/`), and decodes to the placement with digits as dots |
| `DefaultEncoding.FenTokens` | chess_jepa/tokenizer.py:101-127 | the four leading FEN fields encode to 74 tokens, and decode to the placement with digits expanded, followed by the other three fields |
| `DefaultEncoding.FenFieldsEncoding` | chess_jepa/tokenizer.py:106-119 | four space-joined words, the first spelled out in 71 tokens and the rest tokens, take 74 tokens |
| `DefaultEncoding.DefaultVocabularyWords` | chess_jepa/tokenizer.py:107-108 | `e2e4`, `?` and the draw marker each encode to one index: 2244, 4193 and 4 |
| `DefaultEncoding.DefaultUnknownWords` | chess_jepa/tokenizer.py:106-110 | a promotion `a7a8q`, the word `_`, the empty text and a double space all raise the assertion |
| `DefaultEncoding.EmptyWordFails` | chess_jepa/tokenizer.py:106-110 | two spaces make an empty word, which raises the assertion whatever follows |
| `DefaultEncoding.TypicalTrainingExampleFails` | tests/test_tokenizer.py:24-35 | the text the test encodes fails at its first word `_` with the assertion of chess_jepa/tokenizer.py:110 |
| `DefaultEncoding.FirstWordFails` | chess_jepa/tokenizer.py:106-110 | a first word that fails makes `encode` fail with that word's error, whatever follows |
| `DefaultEncoding.NotDefaultToken` | chess_jepa/tokenizer.py:51-95 | strings of the wrong length or kind are not default tokens |
| `Pgn.InitialBefore` | chess_jepa/pgn.py:15-19 | the initial `before` buffer is `window_size - 1` padding tokens, then the start token |
| `Pgn.ExtractTrainingSamples` | chess_jepa/pgn.py:8-41 | the generator yields `Samples(...)`: `m + min(m, window_size)` samples; every move is pushed on the board once, in game order |
| `Pgn.Drain` | chess_jepa/pgn.py:43-63 | the drain loop yields the remaining samples and pushes the moves left in `after` |
| `Pgn.InitialWindow` | chess_jepa/pgn.py:15-20 | the initial buffers are the first window of the stream, with nothing pushed |
| `Pgn.Extend` | chess_jepa/pgn.py:24-25 | appending to `after` while it fills keeps the window invariant, and the board and `before` stay as they were |
| `Pgn.Advance` | chess_jepa/pgn.py:26-33 | one slide (pop both heads, push the move, append the next word) keeps the window invariant |
| `Pgn.FillSample` | chess_jepa/pgn.py:35-41 | the sample yielded in the move loop is the reference sample for that step |
| `Pgn.DrainSample` | chess_jepa/pgn.py:54-63 | the sample yielded in the drain loop is the reference sample for that step |
| `PgnProperties.BufferLengths` | chess_jepa/pgn.py:15-33 | `before` always has `window_size` words; `after` has at most `window_size` |
| `PgnProperties.WindowStretch` | chess_jepa/pgn.py:22-52 | `before ++ after` is always one contiguous stretch of the stream, starting at the number of moves pushed |
| `PgnProperties.FillPhase` | chess_jepa/pgn.py:23-25 | while `after` fills, nothing is pushed, `before` is the initial buffer, and `after` holds the moves seen so far |
| `PgnProperties.SlidePhase` | chess_jepa/pgn.py:26-33 | once `after` is full, after `k` samples the first `k - w` moves are pushed and `after` holds the next `w` |
| `PgnProperties.DrainPhase` | chess_jepa/pgn.py:44-52 | in the drain, `after` holds the unpushed moves, then the outcome marker, then padding |
| `PgnProperties.PlayedSteps` | chess_jepa/pgn.py:23-49 | each sample pushes no move during the fill and one move after it; all moves are pushed at the end |
| `PgnProperties.SamplesIndex` | chess_jepa/pgn.py:36-63 | item `k` of the output is sample `k + 1`, joined with spaces |
| `PgnProperties.SampleWordsLength` | chess_jepa/pgn.py:35-41 | a sample has `2 * window_size` buffer and padding words around the trimmed FEN fields |
| `PgnProperties.TrimFenFields` | chess_jepa/pgn.py:35 | trimming a six-field FEN record keeps its first four fields |
| `PgnTokens.StreamWordToken` | chess_jepa/tokenizer.py:55-90 | padding, the start marker, square pairs and result markers are default tokens without spaces |
| `PgnTokens.SampleWordsEncoding` | chess_jepa/pgn.py:35-41 | the words of a sample encode to `2 * window_size + 74` tokens |
| `PgnTokens.SampleTokenCount` | chess_jepa/pgn.py:8-63 | every sample of a game whose moves are non-promotion UCI moves encodes to `2 * window_size + 74` tokens |
| `PgnTokens.DefaultWindowTokenCount` | chess_jepa/pgn.py:8 | with the default window of 5, every sample encodes to 84 tokens |

## Left out

- Reading the PGN text (`chess.pgn.read_game`, the `str` to `StringIO` wrapping, only the first game) is not modelled. The moves, the `Result` header and the FEN strings are parameters.
- python-chess is not part of this model. The model does not check move legality or compute FEN records; `fens` supplies what `board.fen()` would return after each push.
- The generator's laziness is not modelled. The model produces the whole output sequence at once.
- `PADDING_TOKEN` and `START_TOKEN` are imported by pgn.py but not defined in tokenizer.py. The model takes them as `<_>` and `<start>`, the strings the default vocabulary adds first.
- The module-level `default_vocabulary` object is the `Vocabulary` argument of `Encode` and `Decode`, not a global.
- pgn_to_bin.py, main.py and the training code are not part of this model.
- The text of the error messages is not modelled; an error carries only the offending word, key or index.
- `Pgn.ExtractTrainingSamples`: requires `windowSize >= 1`. With a window of 0 the source raises `IndexError` on the first move (it pops an empty `after`), and it yields nothing for a game without moves.
- `Vocabularies.Vocabulary.GetIndex`: requires the token to be present. The source raises `KeyError` otherwise. `Tokenizer.Encode` checks membership first and reports the missing key as `KeyNotFound`.
- `Vocabularies.Vocabulary.GetToken`: requires the index to be present. The source raises `KeyError` otherwise. `Tokenizer.Decode` reports the missing index as `IndexNotFound`.
- `Tokenizer.Encode`: `char.isdigit()` is modelled for the ASCII digits `0`-`9` only, and every other character is looked up as a token of its own. Python's `isdigit` also accepts other Unicode digits, which the model does not capture. For a decimal digit such as `'٣'` or `'３'`, `int(char)` succeeds, and the source appends that many `.` indices where the model fails with `KeyNotFound`. For a non-decimal digit such as `'²'`, `int(char)` raises `ValueError` where the model fails with `KeyNotFound`.
- `PgnTokens.SampleTokenCount`: holds only for games whose moves are four-character UCI moves, whose result marker is one of the four in the vocabulary, and whose FEN records are well formed. A promotion such as `a7a8q` is not a token, so encoding a sample that holds one fails (`DefaultEncoding.DefaultUnknownWords`).

## Findings

| source | as written | input that shows it | evidently intended | confidence | as-written member | corrected member |
|---|---|---|---|---|---|---|
| tests/test_tokenizer.py:5 | asserts `len(default_vocabulary) == 98` | the default vocabulary built by chess_jepa/tokenizer.py:51-95, which has 4194 tokens | the size of the vocabulary the code builds, 4194. 98 is the size without the square-pair loop (tokenizer.py:86-90), and the 84-token samples asserted in tests/test_pgn.py:22 (for the 55 samples counted at tests/test_pgn.py:21) need that loop | not executed | `DefaultVocabulary.SizeWithoutPairs` | `DefaultVocabulary.InitializeDefaultVocabulary` |
| tests/test_tokenizer.py:25-35 | encodes a sample spelled with `_` and `<s>` | the word `_`: not a token and without `/`, so `encode` raises the assertion | samples spelled with the real padding and start tokens `<_>` and `<start>`, as pgn.py builds them | not executed | `DefaultEncoding.TypicalTrainingExampleFails` | `PgnTokens.SampleTokenCount` |
