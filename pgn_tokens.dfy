/**
 The samples of `extract_training_samples` fed to `encode` with the default
 vocabulary: when every move is a four-character UCI move without promotion,
 the result is one of the four result markers and every board has a
 well-formed FEN record, each sample encodes to `2 * window_size + 74` tokens
 (84 for the default window of 5).
 */
module PgnTokens {
  import opened Text
  import opened SpecialTokens
  import opened DefaultVocabulary
  import opened Tokenizer
  import opened TokenizerProperties
  import opened DefaultEncoding
  import opened Pgn
  import opened PgnProperties

  /** The words the stream is made of: padding, the start marker, four-character moves and result markers. */
  predicate StreamWord(t: string)
  {
    t == PaddingToken || t == StartToken || IsMove(t) || t in ResultMarkers
  }

  /** Words of the stream only. */
  ghost predicate StreamWords(words: seq<string>)
  {
    forall i :: 0 <= i < |words| ==> StreamWord(words[i])
  }

  /** A game `extract_training_samples` can produce encodable samples from. */
  ghost predicate Encodable(moves: seq<string>, fens: seq<string>, result: string)
  {
    && |fens| == |moves| + 1
    && (forall j :: 0 <= j < |moves| ==> IsMove(moves[j]))
    && OutcomeToken(result) in ResultMarkers
    && (forall j :: 0 <= j < |fens| ==> ValidFenFields(TrimFen(fens[j])))
  }

  /** Every word of the stream is one of its kinds. */
  lemma WordKind(moves: seq<string>, result: string, w: nat, j: nat)
    requires w >= 1
    requires forall i :: 0 <= i < |moves| ==> IsMove(moves[i])
    requires OutcomeToken(result) in ResultMarkers
    ensures StreamWord(Word(moves, result, w, j))
  {
  }

  /** Stream words are default tokens without spaces. */
  lemma StreamWordToken(t: string)
    requires StreamWord(t)
    ensures t in DefaultTokens() && ' ' !in t
  {
    if t == PaddingToken {
      DefaultPositions();
    } else if t == StartToken {
      assert Preamble()[0] == StartToken;
      DefaultContainsPreamble(StartToken);
    } else if IsMove(t) {
      DefaultMembership(t);
      MoveWithoutSpace(t);
    } else {
      assert Preamble()[1..5] == ResultMarkers;
      DefaultContainsPreamble(t);
    }
  }

  lemma MoveWithoutSpace(t: string)
    requires IsMove(t)
    ensures ' ' !in t
  {
    assert t == t[..2] + t[2..];
  }

  /** Every stretch of the stream is made of stream words. */
  lemma SliceWords(moves: seq<string>, result: string, w: nat, a: nat, b: nat)
    requires w >= 1 && a <= b
    requires forall i :: 0 <= i < |moves| ==> IsMove(moves[i])
    requires OutcomeToken(result) in ResultMarkers
    ensures StreamWords(Slice(moves, result, w, a, b))
  {
    forall i | 0 <= i < b - a
      ensures StreamWord(Slice(moves, result, w, a, b)[i])
    {
      SliceAt(moves, result, w, a, b, i);
      WordKind(moves, result, w, a + i);
    }
  }

  /** Stream words encode to one default token each, and none holds a space. */
  lemma StreamEncoding(words: seq<string>)
    requires StreamWords(words)
    ensures forall i :: 0 <= i < |words| ==> ' ' !in words[i]
    ensures EncodeWords(DefaultTokens(), words).Success?
    ensures |EncodeWords(DefaultTokens(), words).value| == |words|
  {
    forall i | 0 <= i < |words|
      ensures words[i] in DefaultTokens() && ' ' !in words[i]
    {
      StreamWordToken(words[i]);
    }
    EncodeVocabularyWords(DefaultTokens(), words);
  }

  /** The trimmed FEN fields of a sample encode to 74 tokens. */
  lemma FenWordsEncoding(fields: seq<string>)
    requires ValidFenFields(fields)
    ensures forall i :: 0 <= i < |fields| ==> ' ' !in fields[i]
    ensures EncodeWords(DefaultTokens(), fields).Success?
    ensures |EncodeWords(DefaultTokens(), fields).value| == 74
  {
    FenTokens(fields);
    FenFieldsWithoutSpaces(fields);
    SplitJoin(fields, ' ');
  }

  /** The words of one sample, buffers and padding one token each and the FEN fields 74 tokens. */
  lemma SampleWordsEncoding(moves: seq<string>, fens: seq<string>, result: string, w: nat, k: nat)
    requires w >= 1 && 1 <= k <= SampleCount(|moves|, w)
    requires Encodable(moves, fens, result)
    ensures forall i :: 0 <= i < |SampleWords(moves, fens, result, w, k)| ==> ' ' !in SampleWords(moves, fens, result, w, k)[i]
    ensures EncodeWords(DefaultTokens(), SampleWords(moves, fens, result, w, k)).Success?
    ensures |EncodeWords(DefaultTokens(), SampleWords(moves, fens, result, w, k)).value| == 2 * w + 74
  {
    var p := PlayedCount(|moves|, w, k);
    var before, after := Before(moves, result, w, k), After(moves, result, w, k);
    var fields := TrimFen(fens[p]);
    var padding := Repeat(PaddingToken, w - |after|);
    assert SampleWords(moves, fens, result, w, k) == before + fields + after + padding;
    BuffersWords(moves, result, w, k);
    PartsEncoding(before, fields, after, padding);
  }

  /** Both buffers hold stream words at every step. */
  lemma BuffersWords(moves: seq<string>, result: string, w: nat, k: nat)
    requires w >= 1 && k <= SampleCount(|moves|, w)
    requires forall i :: 0 <= i < |moves| ==> IsMove(moves[i])
    requires OutcomeToken(result) in ResultMarkers
    ensures StreamWords(Before(moves, result, w, k)) && StreamWords(After(moves, result, w, k))
  {
    var p := PlayedCount(|moves|, w, k);
    SliceWords(moves, result, w, p, p + w);
    SliceWords(moves, result, w, p + w, w + k);
  }

  /** Buffers and padding of stream words around well-formed FEN fields. */
  lemma PartsEncoding(before: seq<string>, fields: seq<string>, after: seq<string>, padding: seq<string>)
    requires StreamWords(before) && StreamWords(after)
    requires padding == Repeat(PaddingToken, |padding|)
    requires ValidFenFields(fields)
    ensures var words := before + fields + after + padding;
      && (forall i :: 0 <= i < |words| ==> ' ' !in words[i])
      && EncodeWords(DefaultTokens(), words).Success?
      && |EncodeWords(DefaultTokens(), words).value| == |before| + 74 + |after| + |padding|
  {
    FenWordsEncoding(fields);
    StreamEncoding(before);
    StreamEncoding(after);
    StreamEncoding(padding);
    ConcatEncoding(DefaultTokens(), before, fields, after, padding);
  }

  /** Four word lists in a row: no word holds a space, and the encodings' lengths add up. */
  lemma ConcatEncoding(ts: seq<string>, a: seq<string>, b: seq<string>, c: seq<string>, d: seq<string>)
    requires EncodeWords(ts, a).Success? && EncodeWords(ts, b).Success?
    requires EncodeWords(ts, c).Success? && EncodeWords(ts, d).Success?
    requires forall i :: 0 <= i < |a| ==> ' ' !in a[i]
    requires forall i :: 0 <= i < |b| ==> ' ' !in b[i]
    requires forall i :: 0 <= i < |c| ==> ' ' !in c[i]
    requires forall i :: 0 <= i < |d| ==> ' ' !in d[i]
    ensures forall i :: 0 <= i < |a + b + c + d| ==> ' ' !in (a + b + c + d)[i]
    ensures EncodeWords(ts, a + b + c + d).Success?
    ensures |EncodeWords(ts, a + b + c + d).value|
      == |EncodeWords(ts, a).value| + |EncodeWords(ts, b).value| + |EncodeWords(ts, c).value| + |EncodeWords(ts, d).value|
  {
    EncodeWordsAppend(ts, a, b);
    EncodeWordsAppend(ts, a + b, c);
    EncodeWordsAppend(ts, a + b + c, d);
  }

  /**
   Every sample the generator yields encodes to `2 * w + 74` tokens with the
   default vocabulary: one per buffer or padding word, 74 for the FEN fields.
   */
  lemma SampleTokenCount(moves: seq<string>, fens: seq<string>, result: string, w: nat, k: nat)
    requires w >= 1 && Encodable(moves, fens, result) && k < SampleCount(|moves|, w)
    ensures EncodeText(DefaultTokens(), Samples(moves, fens, result, w)[k]).Success?
    ensures |EncodeText(DefaultTokens(), Samples(moves, fens, result, w)[k]).value| == 2 * w + 74
  {
    var words := SampleWords(moves, fens, result, w, k + 1);
    SamplesIndex(moves, fens, result, w, SampleCount(|moves|, w), k);
    SampleWordsEncoding(moves, fens, result, w, k + 1);
    SplitJoin(words, ' ');
  }

  /** With the default window of 5, a sample is 84 tokens long. */
  lemma DefaultWindowTokenCount(moves: seq<string>, fens: seq<string>, result: string, k: nat)
    requires Encodable(moves, fens, result) && k < SampleCount(|moves|, 5)
    ensures EncodeText(DefaultTokens(), Samples(moves, fens, result, 5)[k]).Success?
    ensures |EncodeText(DefaultTokens(), Samples(moves, fens, result, 5)[k]).value| == 84
  {
    SampleTokenCount(moves, fens, result, 5, k);
  }
}
