/**
 `encode` and `decode` of chess_jepa/tokenizer.py over the default vocabulary:
 which words are single tokens, which trip the assertion, and how many tokens
 the four leading FEN fields take (71 for the piece placement, 74 in all).
 */
module DefaultEncoding {
  import opened Text
  import opened Vocabularies
  import opened DefaultVocabulary
  import opened SpecialTokens
  import opened Tokenizer
  import opened TokenizerProperties

  /** A character of a FEN piece-placement rank: a piece letter or a count of empty squares. */
  predicate PlacementChar(c: char)
  {
    c in Pieces || '1' <= c <= '8'
  }

  /** One rank of the piece placement: piece letters and digits covering exactly eight squares. */
  predicate ValidRank(r: string)
  {
    (forall k :: 0 <= k < |r| ==> PlacementChar(r[k])) && Width(r) == 8
  }

  /** The piece-placement field of a FEN record: eight ranks separated by `/`. */
  predicate ValidPlacement(p: string)
  {
    var ranks := Split(p, '/');
    |ranks| == 8 && forall k :: 0 <= k < 8 ==> ValidRank(ranks[k])
  }

  /** The first four fields of a FEN record: placement, side to move, castling rights, en passant target. */
  predicate ValidFenFields(fields: seq<string>)
  {
    && |fields| == 4
    && ValidPlacement(fields[0])
    && (fields[1] == "w" || fields[1] == "b")
    && fields[2] in CastlingRights
    && (fields[3] == "-" || IsSquare(fields[3]))
  }

  // ---------------------------------------------------------------------------
  // Membership in the default vocabulary

  /** Every `add_token` argument of the default vocabulary ends up in it. */
  lemma DefaultContainsAdditions(t: string)
    requires t in DefaultAdditions()
    ensures t in DefaultTokens()
  {
    AddAllProperties([PaddingToken], DefaultAdditions());
  }

  lemma DefaultContainsPreamble(t: string)
    requires t in Preamble()
    ensures t in DefaultTokens()
  {
    DefaultContainsAdditions(t);
  }

  /** A piece letter, `/`, `.`, a castling string or a side to move is a default token. */
  lemma DefaultContainsCharacters()
    ensures forall c :: c in Pieces ==> [c] in DefaultTokens()
    ensures "." in DefaultTokens() && "/" in DefaultTokens()
    ensures "w" in DefaultTokens() && "b" in DefaultTokens() && "-" in DefaultTokens()
    ensures forall t :: t in CastlingRights ==> t in DefaultTokens()
    ensures forall t :: t in Opening ==> t in DefaultTokens()
  {
    forall c | c in Pieces
      ensures [c] in DefaultTokens()
    {
      var i :| 0 <= i < |Pieces| && Pieces[i] == c;
      assert PieceTokens()[i] == [c];
      DefaultContainsPreamble([c]);
    }
    assert Punctuation[0] == "." && Punctuation[1] == "/" && Punctuation[2] == "w";
    assert Punctuation[3] == "b" && Punctuation[4] == "-";
    forall t | t in Punctuation + CastlingRights + Opening
      ensures t in DefaultTokens()
    {
      DefaultContainsPreamble(t);
    }
  }

  /** No core token is longer than nine characters. */
  lemma CoreTokensShort()
    ensures forall k :: 0 <= k < |CoreTokens| ==> |CoreTokens[k]| <= 9
  {
    PiecesDistinct();
  }

  /** Every default token is at most nine characters long. */
  lemma DefaultTokensShort(t: string)
    requires t in DefaultTokens()
    ensures |t| <= 9
  {
    DefaultMembership(t);
    CoreTokensShort();
  }

  // ---------------------------------------------------------------------------
  // The piece placement

  lemma {:induction false} JoinLength(words: seq<string>, sep: char)
    requires |words| >= 1
    requires forall k :: 0 <= k < |words| ==> words[k] != []
    ensures |Join(words, sep)| >= 2 * |words| - 1
    decreases |words|
  {
    if |words| > 1 {
      JoinLength(words[1..], sep);
    }
  }

  lemma {:induction false} JoinPlacementChars(ranks: seq<string>)
    requires forall k :: 0 <= k < |ranks| ==> ValidRank(ranks[k])
    ensures forall k :: 0 <= k < |Join(ranks, '/')| ==> Join(ranks, '/')[k] == '/' || PlacementChar(Join(ranks, '/')[k])
    decreases |ranks|
  {
    if |ranks| > 1 {
      JoinPlacementChars(ranks[1..]);
      var s := Join(ranks, '/');
      assert s == ranks[0] + ['/'] + Join(ranks[1..], '/');
      forall k | 0 <= k < |s|
        ensures s[k] == '/' || PlacementChar(s[k])
      {
        if k < |ranks[0]| {
          assert s[k] == ranks[0][k];
        } else if k > |ranks[0]| {
          assert s[k] == Join(ranks[1..], '/')[k - |ranks[0]| - 1];
        }
      }
    }
  }

  lemma {:induction false} JoinWidth(ranks: seq<string>)
    requires |ranks| >= 1
    requires forall k :: 0 <= k < |ranks| ==> ValidRank(ranks[k])
    ensures Width(Join(ranks, '/')) == 9 * |ranks| - 1
    decreases |ranks|
  {
    if |ranks| > 1 {
      JoinWidth(ranks[1..]);
      var tail := Join(ranks[1..], '/');
      WidthAppend(ranks[0], "/");
      WidthAppend(ranks[0] + "/", tail);
      assert Width("/") == 1 by {
        assert "/"[..0] == "";
      }
      assert Join(ranks, '/') == ranks[0] + "/" + tail;
    }
  }

  /** A piece placement is never a default token: it is at least 15 characters long. */
  lemma PlacementNotToken(p: string)
    requires ValidPlacement(p)
    ensures p !in DefaultTokens()
  {
    var ranks := Split(p, '/');
    forall k | 0 <= k < 8
      ensures ranks[k] != []
    {
      assert Width(ranks[k]) == 8;
    }
    JoinLength(ranks, '/');
    JoinSplit(p, '/');
    if p in DefaultTokens() {
      DefaultTokensShort(p);
    }
  }

  /**
   A piece placement is spelled out character by character: 64 squares and
   7 separators, so 71 tokens, and decoding them gives the placement with its
   digits spelled out as runs of `.`.
   */
  lemma PlacementTokens(p: string)
    requires ValidPlacement(p)
    ensures EncodeWord(DefaultTokens(), p).Success?
    ensures |EncodeWord(DefaultTokens(), p).value| == 71
    ensures DecodeTokens(DefaultTokens(), EncodeWord(DefaultTokens(), p).value) == Success(ExpandDigits(p))
  {
    var ranks := Split(p, '/');
    var ts := DefaultTokens();
    JoinSplit(p, '/');
    JoinPlacementChars(ranks);
    JoinWidth(ranks);
    PlacementNotToken(p);
    DefaultContainsCharacters();
    assert '/' in p by {
      assert |Join(ranks, '/')| >= |ranks[0]| + 1;
      assert p[|ranks[0]|] == '/';
    }
    forall k | 0 <= k < |p|
      ensures CharEncodable(ts, p[k])
    {
    }
    EncodeCharsSpec(ts, p);
    DecodeEncodeWord(ts, p);
  }

  /**
   The four leading FEN fields, joined by spaces, encode to 74 tokens (71 for
   the placement and one for each other field), and decoding gives the fields
   glued together with the placement's digits spelled out.
   */
  lemma FenTokens(fields: seq<string>)
    requires ValidFenFields(fields)
    ensures EncodeText(DefaultTokens(), Join(fields, ' ')).Success?
    ensures |EncodeText(DefaultTokens(), Join(fields, ' ')).value| == 74
    ensures DecodeTokens(DefaultTokens(), EncodeText(DefaultTokens(), Join(fields, ' ')).value)
      == Success(ExpandDigits(fields[0]) + fields[1] + fields[2] + fields[3])
  {
    var ts := DefaultTokens();
    PlacementTokens(fields[0]);
    DefaultContainsCharacters();
    assert fields[3] in ts by {
      if fields[3] != "-" {
        DefaultMembership(fields[3]);
      }
    }
    FenFieldsWithoutSpaces(fields);
    FenFieldsEncoding(ts, fields);
  }

  /** Four space-separated words, the first spelled out in 71 tokens and the others tokens: 74 tokens. */
  lemma FenFieldsEncoding(ts: seq<string>, fields: seq<string>)
    requires |fields| == 4
    requires forall k :: 0 <= k < 4 ==> ' ' !in fields[k]
    requires fields[0] !in ts && EncodeWord(ts, fields[0]).Success? && |EncodeWord(ts, fields[0]).value| == 71
    requires fields[1] in ts && fields[2] in ts && fields[3] in ts
    ensures EncodeText(ts, Join(fields, ' ')).Success?
    ensures |EncodeText(ts, Join(fields, ' ')).value| == 74
    ensures DecodeTokens(ts, EncodeText(ts, Join(fields, ' ')).value)
      == Success(ExpandDigits(fields[0]) + fields[1] + fields[2] + fields[3])
  {
    var e := EncodeWords(ts, fields);
    assert Split(Join(fields, ' '), ' ') == fields by {
      SplitJoin(fields, ' ');
    }
    assert e.Success? && |e.value| == 74 by {
      var widths: seq<nat> := [71, 1, 1, 1];
      forall k | 0 <= k < 4
        ensures EncodeWord(ts, fields[k]).Success? && |EncodeWord(ts, fields[k]).value| == widths[k]
      {
      }
      EncodeWordsLength(ts, fields, widths);
      SumFour(71, 1, 1, 1);
    }
    assert DecodeTokens(ts, e.value) == Success(ExpandDigits(fields[0]) + fields[1] + fields[2] + fields[3]) by {
      DecodeEncodeWords(ts, fields);
      RenderFenFields(ts, fields);
    }
  }

  lemma FenFieldsWithoutSpaces(fields: seq<string>)
    requires ValidFenFields(fields)
    ensures forall k :: 0 <= k < |fields| ==> ' ' !in fields[k]
  {
    PlacementWithoutSpaces(fields[0]);
    CastlingWithoutSpaces();
    assert ' ' !in fields[3] by {
      if fields[3] != "-" {
        assert fields[3] == [fields[3][0], fields[3][1]];
      }
    }
    forall k | 0 <= k < 4
      ensures ' ' !in fields[k]
    {
      if k == 1 {
        assert fields[1] == "w" || fields[1] == "b";
      }
    }
  }

  lemma PlacementWithoutSpaces(p: string)
    requires ValidPlacement(p)
    ensures ' ' !in p
  {
    var ranks := Split(p, '/');
    JoinSplit(p, '/');
    JoinPlacementChars(ranks);
    forall k | 0 <= k < |p|
      ensures p[k] != ' '
    {
      if p[k] != '/' {
        PlacementCharNotSpace(p[k]);
      }
    }
  }

  lemma PlacementCharNotSpace(c: char)
    requires PlacementChar(c)
    ensures c != ' '
  {
    assert ' ' !in Pieces;
  }

  lemma CastlingWithoutSpaces()
    ensures forall k :: 0 <= k < |CastlingRights| ==> ' ' !in CastlingRights[k]
  {
  }

  lemma RenderFenFields(ts: seq<string>, fields: seq<string>)
    requires |fields| == 4
    requires fields[0] !in ts
    requires forall k :: 1 <= k < 4 ==> fields[k] in ts
    ensures RenderedWords(ts, fields) == ExpandDigits(fields[0]) + fields[1] + fields[2] + fields[3]
  {
    assert fields[..1][..0] == [];
    assert fields[..2][..1] == fields[..1];
    assert fields[..3][..2] == fields[..2];
    assert fields[..4][..3] == fields[..3];
    assert fields[..4] == fields;
    assert RenderedWords(ts, fields[..1]) == ExpandDigits(fields[0]) by {
      assert RenderedWords(ts, fields[..0]) == "";
      assert "" + ExpandDigits(fields[0]) == ExpandDigits(fields[0]);
    }
    assert RenderedWords(ts, fields[..2]) == RenderedWords(ts, fields[..1]) + fields[1];
    assert RenderedWords(ts, fields[..3]) == RenderedWords(ts, fields[..2]) + fields[2];
    assert RenderedWords(ts, fields[..4]) == RenderedWords(ts, fields[..3]) + fields[3];
  }

  // ---------------------------------------------------------------------------
  // Single words

  /** A move, the mask and the draw marker are each one token, at the index their `add_token` call gave them. */
  lemma DefaultVocabularyWords()
    ensures EncodeText(DefaultTokens(), "e2e4") == Success([2244])
    ensures EncodeText(DefaultTokens(), "?") == Success([4193])
    ensures EncodeText(DefaultTokens(), "<1/2-1/2>") == Success([4])
  {
    DefaultPositions();
    WordsWithoutSpaces();
    DefaultIndexOf(2244);
    SingleToken(DefaultTokens(), "e2e4", 2244);
    DefaultIndexOf(4193);
    SingleToken(DefaultTokens(), "?", 4193);
    DefaultIndexOf(4);
    SingleToken(DefaultTokens(), "<1/2-1/2>", 4);
  }

  /** A text of one word that is a token encodes to that token's index. */
  lemma SingleToken(ts: seq<string>, w: string, i: nat)
    requires ' ' !in w && i < |ts| && ts[i] == w && IndexOf(ts, w) == i
    ensures EncodeText(ts, w) == Success([i])
  {
    OneWord(ts, w);
  }

  /** A text of one word that is not a token and holds no `/` trips the assertion. */
  lemma SingleUnknownWord(ts: seq<string>, w: string)
    requires ' ' !in w && '/' !in w && w !in ts
    ensures EncodeText(ts, w) == Failure(AssertionFailed(w))
  {
    OneWord(ts, w);
  }

  lemma WordsWithoutSpaces()
    ensures ' ' !in "e2e4" && ' ' !in "?" && ' ' !in "<1/2-1/2>"
    ensures ' ' !in "a7a8q" && '/' !in "a7a8q" && ' ' !in "_" && '/' !in "_"
  {
  }

  /**
   A promotion move, `_` and the empty word are not tokens and hold no `/`,
   so `encode` trips its assertion; two spaces in a row make an empty word.
   */
  lemma DefaultUnknownWords()
    ensures EncodeText(DefaultTokens(), "a7a8q") == Failure(AssertionFailed("a7a8q"))
    ensures EncodeText(DefaultTokens(), "_") == Failure(AssertionFailed("_"))
    ensures EncodeText(DefaultTokens(), "") == Failure(AssertionFailed(""))
    ensures EncodeText(DefaultTokens(), "e2e4  e7e5") == Failure(AssertionFailed(""))
  {
    WordsWithoutSpaces();
    UnknownWordsNotCore();
    NotDefaultToken("a7a8q");
    SingleUnknownWord(DefaultTokens(), "a7a8q");
    NotDefaultToken("_");
    SingleUnknownWord(DefaultTokens(), "_");
    NotDefaultToken("");
    SingleUnknownWord(DefaultTokens(), "");
    DoubleSpace();
  }

  /**
   The text that tests/test_tokenizer.py:35 encodes: its first word is `_`,
   which is not a token and holds no `/`, so `encode` trips its assertion there.
   */
  lemma TypicalTrainingExampleFails()
    ensures EncodeText(DefaultTokens(),
              "_ _ <s> e2e4 e7e5 ? b8c6 f1c4 d7d6" + " "
              + "rnbqkbnr/pppppppp/8/8/8/8/PPPPPPPP/RNBQKBNR w KQkq -" + " "
              + "e1g1 e8g8 <1-0> _ _")
            == Failure(AssertionFailed("_"))
  {
    var text := "_ _ <s> e2e4 e7e5 ? b8c6 f1c4 d7d6" + " "
              + "rnbqkbnr/pppppppp/8/8/8/8/PPPPPPPP/RNBQKBNR w KQkq -" + " "
              + "e1g1 e8g8 <1-0> _ _";
    assert text == "_" + " " + text[2..];
    assert EncodeWord(DefaultTokens(), "_") == Failure(AssertionFailed("_")) by {
      DefaultUnknownWords();
      WordsWithoutSpaces();
      OneWord(DefaultTokens(), "_");
    }
    FirstWordFails(DefaultTokens(), "_", text[2..]);
  }

  /** A first word that fails makes the whole text fail with its error, whatever follows. */
  lemma FirstWordFails(ts: seq<string>, a: string, rest: string)
    requires ' ' !in a && EncodeWord(ts, a).Failure?
    ensures EncodeText(ts, a + " " + rest) == EncodeWord(ts, a)
  {
    var words := Split(a + " " + rest, ' ');
    assert words == [a] + Split(rest, ' ') by {
      FirstIndexOfAfterWord(a, rest, ' ');
      assert (a + " " + rest)[..|a|] == a && (a + " " + rest)[|a| + 1..] == rest;
    }
    assert words[..0] == [];
    WordsFailure(ts, words, 0);
  }

  /** No core token is empty, and none starts with `a` or `_`. */
  lemma CoreTokensInitials()
    ensures forall k :: 0 <= k < |CoreTokens| ==> CoreTokens[k] != [] && CoreTokens[k][0] != 'a' && CoreTokens[k][0] != '_'
  {
    PiecesDistinct();
  }

  lemma UnknownWordsNotCore()
    ensures "a7a8q" !in CoreTokens && "_" !in CoreTokens && "" !in CoreTokens
  {
    CoreTokensInitials();
  }

  lemma NotDefaultToken(t: string)
    requires |t| > 9 || (t !in CoreTokens && |t| != 2 && |t| != 4 && t != MaskToken)
    ensures t !in DefaultTokens()
  {
    if t in DefaultTokens() {
      DefaultTokensShort(t);
      DefaultMembership(t);
    }
  }

  lemma OneWord(ts: seq<string>, w: string)
    requires ' ' !in w
    ensures Split(w, ' ') == [w]
    ensures EncodeText(ts, w) == EncodeWord(ts, w)
  {
    var words := [w];
    assert words[..0] == [];
    assert EncodeWords(ts, words[..0]) == Success([]);
    assert EncodeWords(ts, words) == Then(Success([]), EncodeWord(ts, w));
    if EncodeWord(ts, w).Success? {
      assert [] + EncodeWord(ts, w).value == EncodeWord(ts, w).value;
    }
  }

  lemma DoubleSpace()
    ensures EncodeText(DefaultTokens(), "e2e4  e7e5") == Failure(AssertionFailed(""))
  {
    assert "e2e4  e7e5" == "e2e4" + "  " + "e7e5";
    DefaultPositions();
    WordsWithoutSpaces();
    UnknownWordsNotCore();
    NotDefaultToken("");
    EmptyWordFails(DefaultTokens(), "e2e4", "e7e5");
  }

  /** Two spaces after a token make an empty word, which trips the assertion whatever follows. */
  lemma EmptyWordFails(ts: seq<string>, a: string, b: string)
    requires a in ts && "" !in ts && ' ' !in a && ' ' !in b
    ensures EncodeText(ts, a + "  " + b) == Failure(AssertionFailed(""))
  {
    var words := [a, "", b];
    assert Join(words, ' ') == a + "  " + b by {
      assert Join(words[1..], ' ') == "" + " " + b by {
        assert Join(words[2..], ' ') == b;
      }
    }
    SplitJoin(words, ' ');
    assert words[..1] == [a];
    assert EncodeWords(ts, [a][..0]) == Success([]) by {
      assert [a][..0] == [];
    }
    WordsFailure(ts, words, 1);
  }
}
