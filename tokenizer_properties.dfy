/**
 What `encode` and `decode` of chess_jepa/tokenizer.py promise over any
 vocabulary: a vocabulary word is one token, an unknown word without `/`
 stops the encoding, the character fallback gives one token per character
 and one `.` per empty square, and decoding an encoding gives the words back
 with spaces removed and digits spelled out as runs of `.`.
 */
module TokenizerProperties {
  import opened Text
  import opened Vocabularies
  import opened Tokenizer

  /** A character the fallback can encode: a digit (`0`, or any digit once `.` is a token), or a token of its own. */
  predicate CharEncodable(ts: seq<string>, c: char)
  {
    if IsDigit(c) then DigitValue(c) == 0 || "." in ts else [c] in ts
  }

  /** The number of tokens the fallback gives a character: its value for a digit, one otherwise. */
  function CharWidth(c: char): nat
  {
    if IsDigit(c) then DigitValue(c) else 1
  }

  /** The number of tokens the fallback gives a word. */
  function Width(w: string): nat
    decreases |w|
  {
    if w == [] then 0 else Width(w[..|w| - 1]) + CharWidth(w[|w| - 1])
  }

  /** The text a character stands for: a run of `.` for a digit, the character itself otherwise. */
  function ExpandChar(c: char): string
  {
    if IsDigit(c) then Repeat('.', DigitValue(c)) else [c]
  }

  /** A word with every digit spelled out as that many `.`. */
  function ExpandDigits(w: string): string
    decreases |w|
  {
    if w == [] then "" else ExpandDigits(w[..|w| - 1]) + ExpandChar(w[|w| - 1])
  }

  /** What decoding the encoding of one word gives back. */
  function Rendered(ts: seq<string>, w: string): string
  {
    if w in ts then w else ExpandDigits(w)
  }

  /** What decoding the encoding of a word list gives back: the rendered words glued together. */
  function RenderedWords(ts: seq<string>, words: seq<string>): string
    decreases |words|
  {
    if words == [] then "" else RenderedWords(ts, words[..|words| - 1]) + Rendered(ts, words[|words| - 1])
  }

  // ---------------------------------------------------------------------------
  // Encoding

  /** A word that is a token encodes to exactly its index, whatever characters it holds. */
  lemma EncodeVocabularyWord(ts: seq<string>, w: string)
    requires w in ts
    ensures EncodeWord(ts, w) == Success([IndexOf(ts, w)])
    ensures ts[EncodeWord(ts, w).value[0]] == w
  {
  }

  /** A word that is not a token and has no `/` trips the assertion. */
  lemma EncodeUnknownWord(ts: seq<string>, w: string)
    requires w !in ts && '/' !in w
    ensures EncodeWord(ts, w) == Failure(AssertionFailed(w))
  {
  }

  /** A text of vocabulary words encodes to one index per word, in order. */
  lemma {:induction false} EncodeVocabularyWords(ts: seq<string>, words: seq<string>)
    requires forall k :: 0 <= k < |words| ==> words[k] in ts
    ensures EncodeWords(ts, words).Success?
    ensures |EncodeWords(ts, words).value| == |words|
    ensures forall k :: 0 <= k < |words| ==> EncodeWords(ts, words).value[k] == IndexOf(ts, words[k])
    decreases |words|
  {
    if words != [] {
      var prefix := words[..|words| - 1];
      EncodeVocabularyWords(ts, prefix);
    }
  }

  /** The encoding of a word list succeeds exactly when every word's encoding does. */
  lemma {:induction false} EncodeWordsSuccess(ts: seq<string>, words: seq<string>)
    ensures EncodeWords(ts, words).Success? <==> forall k :: 0 <= k < |words| ==> EncodeWord(ts, words[k]).Success?
    decreases |words|
  {
    if words != [] {
      var prefix := words[..|words| - 1];
      EncodeWordsSuccess(ts, prefix);
      assert forall k :: 0 <= k < |prefix| ==> prefix[k] == words[k];
    }
  }

  /** Encoding two word lists one after the other is encoding their concatenation. */
  lemma {:induction false} EncodeWordsAppend(ts: seq<string>, a: seq<string>, b: seq<string>)
    ensures EncodeWords(ts, a + b) == Then(EncodeWords(ts, a), EncodeWords(ts, b))
    decreases |b|
  {
    if b == [] {
      assert a + b == a;
      var x := EncodeWords(ts, a);
      if x.Success? {
        assert x.value + [] == x.value;
      }
    } else {
      var b' := b[..|b| - 1];
      assert (a + b)[..|a + b| - 1] == a + b';
      EncodeWordsAppend(ts, a, b');
      var x, y, z := EncodeWords(ts, a), EncodeWords(ts, b'), EncodeWord(ts, b[|b| - 1]);
      ThenAssoc(x, y, z);
    }
  }

  lemma ThenAssoc(x: Result<seq<nat>>, y: Result<seq<nat>>, z: Result<seq<nat>>)
    ensures Then(Then(x, y), z) == Then(x, Then(y, z))
  {
    if x.Success? && y.Success? && z.Success? {
      assert x.value + y.value + z.value == x.value + (y.value + z.value);
    }
  }

  /** The encoding of a word list is as long as the encodings of its words together. */
  lemma {:induction false} EncodeWordsLength(ts: seq<string>, words: seq<string>, widths: seq<nat>)
    requires |widths| == |words|
    requires forall k :: 0 <= k < |words| ==>
      EncodeWord(ts, words[k]).Success? && |EncodeWord(ts, words[k]).value| == widths[k]
    ensures EncodeWords(ts, words).Success?
    ensures |EncodeWords(ts, words).value| == Sum(widths)
    decreases |words|
  {
    if words != [] {
      EncodeWordsLength(ts, words[..|words| - 1], widths[..|widths| - 1]);
    }
  }

  function Sum(xs: seq<nat>): nat
    decreases |xs|
  {
    if xs == [] then 0 else Sum(xs[..|xs| - 1]) + xs[|xs| - 1]
  }

  lemma SumFour(a: nat, b: nat, c: nat, d: nat)
    ensures Sum([a, b, c, d]) == a + b + c + d
  {
    var xs := [a, b, c, d];
    assert xs[..3] == [a, b, c] && [a, b, c][..2] == [a, b] && [a, b][..1] == [a] && [a][..0] == [];
    assert Sum([a]) == a;
    assert Sum([a, b]) == a + b;
    assert Sum([a, b, c]) == a + b + c;
  }

  /**
   The character fallback succeeds exactly when every character is encodable,
   and then gives `Width(w)` tokens: one per character, `d` per digit `d`.
   */
  lemma {:induction false} EncodeCharsSpec(ts: seq<string>, w: string)
    ensures EncodeChars(ts, w).Success? <==> forall k :: 0 <= k < |w| ==> CharEncodable(ts, w[k])
    ensures EncodeChars(ts, w).Success? ==> |EncodeChars(ts, w).value| == Width(w)
    decreases |w|
  {
    if w != [] {
      var prefix := w[..|w| - 1];
      EncodeCharsSpec(ts, prefix);
      assert forall k :: 0 <= k < |prefix| ==> prefix[k] == w[k];
    }
  }

  lemma {:induction false} WidthAppend(a: string, b: string)
    ensures Width(a + b) == Width(a) + Width(b)
    decreases |b|
  {
    if b == [] {
      assert a + b == a;
    } else {
      assert (a + b)[..|a + b| - 1] == a + b[..|b| - 1];
      WidthAppend(a, b[..|b| - 1]);
    }
  }

  // ---------------------------------------------------------------------------
  // Decoding

  /** `decode` succeeds exactly when every index is in range; a failure names an index that is out of range. */
  lemma {:induction false} DecodeTokensSpec(ts: seq<string>, input: seq<int>)
    ensures DecodeTokens(ts, input).Success? <==> forall k :: 0 <= k < |input| ==> 0 <= input[k] < |ts|
    ensures DecodeTokens(ts, input).Failure? ==>
      exists k :: 0 <= k < |input| && !(0 <= input[k] < |ts|) && DecodeTokens(ts, input).error == IndexNotFound(input[k])
    decreases |input|
  {
    if input != [] {
      var prefix := input[..|input| - 1];
      DecodeTokensSpec(ts, prefix);
      assert forall k :: 0 <= k < |prefix| ==> prefix[k] == input[k];
    }
  }

  /** Decoding two index lists one after the other glues their texts together. */
  lemma {:induction false} DecodeAppend(ts: seq<string>, a: seq<int>, b: seq<int>)
    requires DecodeTokens(ts, a).Success? && DecodeTokens(ts, b).Success?
    ensures DecodeTokens(ts, a + b) == Success(DecodeTokens(ts, a).value + DecodeTokens(ts, b).value)
    decreases |b|
  {
    if b == [] {
      assert a + b == a;
      assert DecodeTokens(ts, a).value + "" == DecodeTokens(ts, a).value;
    } else {
      var b' := b[..|b| - 1];
      assert (a + b)[..|a + b| - 1] == a + b';
      assert DecodeTokens(ts, b').Success?;
      DecodeAppend(ts, a, b');
      assert (a + b)[|a + b| - 1] == b[|b| - 1];
      var i := b[|b| - 1];
      var x, y := DecodeTokens(ts, a).value, DecodeTokens(ts, b').value;
      assert x + y + ts[i] == x + (y + ts[i]);
    }
  }

  lemma DecodeSingle(ts: seq<string>, i: nat)
    requires i < |ts|
    ensures DecodeTokens(ts, [i]) == Success(ts[i])
  {
    var single: seq<int> := [i];
    assert single[..0] == [];
    assert "" + ts[i] == ts[i];
  }

  /** `d` copies of the index of `.` decode to `d` dots. */
  lemma {:induction false} DecodeDots(ts: seq<string>, d: nat)
    requires "." in ts
    ensures DecodeTokens(ts, Repeat(IndexOf(ts, "."), d)) == Success(Repeat('.', d))
    decreases d
  {
    if d > 0 {
      var dot := IndexOf(ts, ".");
      DecodeDots(ts, d - 1);
      RepeatSnoc(dot, d - 1);
      RepeatSnoc('.', d - 1);
      assert Repeat(dot, d)[..d - 1] == Repeat(dot, d - 1);
    }
  }

  lemma DecodeEncodeChar(ts: seq<string>, c: char)
    requires EncodeChar(ts, c).Success?
    ensures DecodeTokens(ts, EncodeChar(ts, c).value) == Success(ExpandChar(c))
  {
    if IsDigit(c) {
      if DigitValue(c) > 0 {
        DecodeDots(ts, DigitValue(c));
      }
    } else {
      DecodeSingle(ts, IndexOf(ts, [c]));
    }
  }

  /** Decoding the character fallback of a word gives the word with its digits spelled out. */
  lemma {:induction false} DecodeEncodeChars(ts: seq<string>, w: string)
    requires EncodeChars(ts, w).Success?
    ensures DecodeTokens(ts, EncodeChars(ts, w).value) == Success(ExpandDigits(w))
    decreases |w|
  {
    if w != [] {
      var prefix, c := w[..|w| - 1], w[|w| - 1];
      DecodeEncodeChars(ts, prefix);
      DecodeEncodeChar(ts, c);
      DecodeAppend(ts, EncodeChars(ts, prefix).value, EncodeChar(ts, c).value);
    }
  }

  lemma DecodeEncodeWord(ts: seq<string>, w: string)
    requires EncodeWord(ts, w).Success?
    ensures DecodeTokens(ts, EncodeWord(ts, w).value) == Success(Rendered(ts, w))
  {
    if w in ts {
      DecodeSingle(ts, IndexOf(ts, w));
    } else {
      DecodeEncodeChars(ts, w);
    }
  }

  /** Decoding the encoding of a word list gives the rendered words glued together. */
  lemma {:induction false} DecodeEncodeWords(ts: seq<string>, words: seq<string>)
    requires EncodeWords(ts, words).Success?
    ensures DecodeTokens(ts, EncodeWords(ts, words).value) == Success(RenderedWords(ts, words))
    decreases |words|
  {
    if words != [] {
      var prefix, w := words[..|words| - 1], words[|words| - 1];
      DecodeEncodeWords(ts, prefix);
      DecodeEncodeWord(ts, w);
      DecodeAppend(ts, EncodeWords(ts, prefix).value, EncodeWord(ts, w).value);
    }
  }

  /** `decode(encode(s))` is the words of `s` rendered and glued together. */
  lemma DecodeEncodeText(ts: seq<string>, s: string)
    requires EncodeText(ts, s).Success?
    ensures DecodeTokens(ts, EncodeText(ts, s).value) == Success(RenderedWords(ts, Split(s, ' ')))
  {
    DecodeEncodeWords(ts, Split(s, ' '));
  }

  lemma {:induction false} RenderedVocabularyWords(ts: seq<string>, words: seq<string>)
    requires forall k :: 0 <= k < |words| ==> words[k] in ts
    ensures RenderedWords(ts, words) == Concat(words)
    decreases |words|
  {
    if words != [] {
      RenderedVocabularyWords(ts, words[..|words| - 1]);
    }
  }

  /**
   When every space-separated word of `s` is a token, `encode` succeeds and
   `decode(encode(s))` is `s` with its spaces removed.
   */
  lemma RoundTripVocabularyWords(ts: seq<string>, s: string)
    requires forall k :: 0 <= k < |Split(s, ' ')| ==> Split(s, ' ')[k] in ts
    ensures EncodeText(ts, s).Success?
    ensures DecodeTokens(ts, EncodeText(ts, s).value) == Success(RemoveSpaces(s))
  {
    var words := Split(s, ' ');
    EncodeVocabularyWords(ts, words);
    DecodeEncodeWords(ts, words);
    RenderedVocabularyWords(ts, words);
    RemoveSpacesJoin(words);
    JoinSplit(s, ' ');
  }
}
