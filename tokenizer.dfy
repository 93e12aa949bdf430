/**
 `encode` and `decode` of chess_jepa/tokenizer.py. The pure functions
 `EncodeText` and `DecodeTokens` say what the two operations compute over a
 vocabulary's token sequence; `Encode` is the source's loop over the words,
 characters and digit runs, proved to compute `EncodeText`.
 */
module Tokenizer {
  import opened Text
  import opened Vocabularies

  /** The exceptions `encode` and `decode` can raise. */
  datatype Error =
    | AssertionFailed(word: string)  // `assert "/" in word`: an unknown word that is not a FEN field
    | KeyNotFound(key: string)       // `get_index` on a token that is not in the vocabulary
    | IndexNotFound(index: int)      // `get_token` on an index that is not in the vocabulary

  datatype Result<T> = Success(value: T) | Failure(error: Error)

  /** The first failure of two steps run in order, or both outputs one after the other. */
  function Then(a: Result<seq<nat>>, b: Result<seq<nat>>): (r: Result<seq<nat>>)
    ensures r.Success? <==> a.Success? && b.Success?
    ensures r.Success? ==> r.value == a.value + b.value
    ensures a.Failure? ==> r == a
    ensures a.Success? && b.Failure? ==> r == b
  {
    match a
    case Failure(_) => a
    case Success(x) =>
      match b
      case Failure(_) => b
      case Success(y) => Success(x + y)
  }

  /** `char.isdigit()`, for ASCII digits. */
  predicate IsDigit(c: char)
  {
    '0' <= c <= '9'
  }

  /** `int(char)` for a digit. */
  function DigitValue(c: char): (n: nat)
    requires IsDigit(c)
    ensures n <= 9
  {
    c as int - '0' as int
  }

  /**
   One character of a word that is not in the vocabulary: a digit `d` stands
   for `d` empty squares, so it encodes to `d` copies of the index of `.`;
   any other character encodes to its own index.
   */
  function EncodeChar(ts: seq<string>, c: char): Result<seq<nat>>
  {
    if IsDigit(c) then
      if DigitValue(c) == 0 then Success([])
      else if "." in ts then Success(Repeat(IndexOf(ts, "."), DigitValue(c)))
      else Failure(KeyNotFound("."))
    else if [c] in ts then Success([IndexOf(ts, [c])])
    else Failure(KeyNotFound([c]))
  }

  /** The character-by-character fallback for a word that is not in the vocabulary. */
  function EncodeChars(ts: seq<string>, w: string): Result<seq<nat>>
    decreases |w|
  {
    if w == [] then Success([])
    else Then(EncodeChars(ts, w[..|w| - 1]), EncodeChar(ts, w[|w| - 1]))
  }

  /** One space-separated word: its own index when it is a token, else it must hold `/` and is spelled out. */
  function EncodeWord(ts: seq<string>, w: string): Result<seq<nat>>
  {
    if w in ts then Success([IndexOf(ts, w)])
    else if '/' !in w then Failure(AssertionFailed(w))
    else EncodeChars(ts, w)
  }

  /** The words in order; the first failure stops the encoding. */
  function EncodeWords(ts: seq<string>, words: seq<string>): Result<seq<nat>>
    decreases |words|
  {
    if words == [] then Success([])
    else Then(EncodeWords(ts, words[..|words| - 1]), EncodeWord(ts, words[|words| - 1]))
  }

  /** `encode(input)` over a vocabulary holding `ts`: the input is split on single spaces. */
  function EncodeText(ts: seq<string>, input: string): Result<seq<nat>>
  {
    EncodeWords(ts, Split(input, ' '))
  }

  /** `decode(input)` over a vocabulary holding `ts`: the tokens of the indices, glued together. */
  function DecodeTokens(ts: seq<string>, input: seq<int>): Result<string>
    decreases |input|
  {
    if input == [] then Success("")
    else
      match DecodeTokens(ts, input[..|input| - 1])
      case Failure(e) => Failure(e)
      case Success(s) =>
        var i := input[|input| - 1];
        if 0 <= i < |ts| then Success(s + ts[i]) else Failure(IndexNotFound(i))
  }

  /**
   `encode`: the loops over the words, over the characters of a fallback word
   and over the copies of `.` for a digit. `v` is the module's default
   vocabulary.
   */
  method Encode(v: Vocabulary, input: string) returns (r: Result<seq<nat>>)
    requires v.Valid()
    ensures r == EncodeText(v.tokens, input)
  {
    var words := Split(input, ' ');
    var result: seq<nat> := [];
    for i := 0 to |words|
      invariant EncodeWords(v.tokens, words[..i]) == Success(result)
    {
      var word := words[i];
      WordsStep(v.tokens, words, i);
      if v.Contains(word) {
        result := result + [v.GetIndex(word)];
      } else {
        if '/' !in word {
          WordsFailure(v.tokens, words, i);
          return Failure(AssertionFailed(word));
        }
        ghost var base := result;
        ghost var expanded: seq<nat> := [];
        for j := 0 to |word|
          invariant EncodeChars(v.tokens, word[..j]) == Success(expanded)
          invariant result == base + expanded
        {
          var c := word[j];
          CharsStep(v.tokens, word, j);
          if IsDigit(c) {
            var n := DigitValue(c);
            if n > 0 && !v.Contains(".") {
              CharsFailure(v.tokens, word, j);
              WordsFailure(v.tokens, words, i);
              return Failure(KeyNotFound("."));
            }
            ghost var dot: nat := if "." in v.tokens then IndexOf(v.tokens, ".") else 0;
            for k := 0 to n
              invariant result == base + (expanded + Repeat(dot, k))
            {
              result := result + [v.GetIndex(".")];
              RepeatSnoc(dot, k);
              AppendAssoc(base, expanded + Repeat(dot, k), [dot]);
              AppendAssoc(expanded, Repeat(dot, k), [dot]);
            }
          } else {
            if !v.Contains([c]) {
              CharsFailure(v.tokens, word, j);
              WordsFailure(v.tokens, words, i);
              return Failure(KeyNotFound([c]));
            }
            result := result + [v.GetIndex([c])];
            AppendAssoc(base, expanded, [IndexOf(v.tokens, [c])]);
          }
          expanded := expanded + EncodeChar(v.tokens, c).value;
        }
        TakeAll(word);
      }
    }
    TakeAll(words);
    r := Success(result);
  }

  /** `decode`, reading the vocabulary's `index_to_token` map. */
  function Decode(v: Vocabulary, input: seq<int>): (r: Result<string>)
    reads v
    requires v.Valid()
    ensures r == DecodeTokens(v.tokens, input)
    decreases |input|
  {
    if input == [] then Success("")
    else
      match Decode(v, input[..|input| - 1])
      case Failure(e) => Failure(e)
      case Success(s) =>
        var i := input[|input| - 1];
        if 0 <= i < v.Size() then Success(s + v.GetToken(i)) else Failure(IndexNotFound(i))
  }

  lemma AppendAssoc<T>(a: seq<T>, b: seq<T>, c: seq<T>)
    ensures a + (b + c) == a + b + c
  {
  }

  lemma WordsStep(ts: seq<string>, words: seq<string>, i: nat)
    requires i < |words|
    ensures EncodeWords(ts, words[..i + 1]) == Then(EncodeWords(ts, words[..i]), EncodeWord(ts, words[i]))
  {
    assert words[..i + 1][..i] == words[..i];
  }

  lemma CharsStep(ts: seq<string>, w: string, j: nat)
    requires j < |w|
    ensures EncodeChars(ts, w[..j + 1]) == Then(EncodeChars(ts, w[..j]), EncodeChar(ts, w[j]))
  {
    assert w[..j + 1][..j] == w[..j];
  }

  /** A word that fails makes the whole encoding fail with its error, whatever follows it. */
  lemma {:induction false} WordsFailure(ts: seq<string>, words: seq<string>, i: nat)
    requires i < |words|
    requires EncodeWords(ts, words[..i]).Success? && EncodeWord(ts, words[i]).Failure?
    ensures EncodeWords(ts, words) == EncodeWord(ts, words[i])
    decreases |words|
  {
    if i == |words| - 1 {
      assert words[..i] == words[..|words| - 1];
    } else {
      var prefix := words[..|words| - 1];
      assert prefix[..i] == words[..i] && prefix[i] == words[i];
      WordsFailure(ts, prefix, i);
    }
  }

  /** A character that fails makes the fallback encoding of its word fail with its error. */
  lemma {:induction false} CharsFailure(ts: seq<string>, w: string, j: nat)
    requires j < |w|
    requires EncodeChars(ts, w[..j]).Success? && EncodeChar(ts, w[j]).Failure?
    ensures EncodeChars(ts, w) == EncodeChar(ts, w[j])
    decreases |w|
  {
    if j == |w| - 1 {
      assert w[..j] == w[..|w| - 1];
    } else {
      var prefix := w[..|w| - 1];
      assert prefix[..j] == w[..j] && prefix[j] == w[j];
      CharsFailure(ts, prefix, j);
    }
  }
}
