/**
 `_initialize_default_vocabulary` of chess_jepa/tokenizer.py and what it
 builds: padding, start and result markers, FEN piece letters, `.` and `/`,
 side to move, `-`, the 16 castling-rights strings, the 64 squares, all 4096
 four-character UCI square pairs, and `?`.
 */
module DefaultVocabulary {
  import opened Text
  import opened Vocabularies
  import opened SpecialTokens

  /** White wins, black wins, draw, unknown result. */
  const ResultMarkers: seq<string> := ["<1-0>", "<0-1>", "<1/2-1/2>", "<*>"]
  /** The first run of `add_token` calls: the start marker and the result markers. */
  const Opening: seq<string> := [StartToken] + ResultMarkers
  const Pieces: string := "rnbqkpRNBQKP"
  /** Empty square, rank separator, white to move, black to move, "none". */
  const Punctuation: seq<string> := [".", "/", "w", "b", "-"]
  const Files: string := "abcdefgh"
  const Ranks: string := "12345678"
  /** `_castling_rights`, in the source's order. */
  const CastlingRights: seq<string> := [
    "-", "K", "Q", "KQ", "k", "Kk", "Qk", "KQk",
    "q", "Kq", "Qq", "KQq", "kq", "Kkq", "Qkq", "KQkq"]
  const MaskToken: string := "?"

  /**
   The vocabulary's first 33 entries: the padding token, the opening markers,
   the pieces, then the punctuation and castling rights that were not there yet
   (the re-adds of `b`, `-`, `K`, `Q`, `k` and `q` are dropped). `CoreN` is the
   prefix of length `N`.
   */
  const CoreTokens: seq<string> := Core26 + ["Kq", "Qq", "KQq", "kq", "Kkq", "Qkq", "KQkq"]
  const Core26: seq<string> := Core23 + ["Kk", "Qk", "KQk"]
  const Core23: seq<string> := Core22 + ["KQ"]
  const Core22: seq<string> := Core21 + ["-"]
  const Core21: seq<string> := Core18 + [".", "/", "w"]
  const Core18: seq<string> := Core6 + PieceTokens()
  const Core6: seq<string> := [PaddingToken] + Opening

  /** The one-letter strings of `Pieces`. */
  function PieceTokens(): seq<string>
  {
    seq(|Pieces|, i requires 0 <= i < |Pieces| => [Pieces[i]])
  }

  /** `file + rank` for file number `file` (0 is `a`) and rank number `rank` (0 is `1`). */
  function Square(file: nat, rank: nat): string
    requires file < 8 && rank < 8
  {
    [Files[file]] + [Ranks[rank]]
  }

  /** The 64 squares in loop order, `a1, a2, ..., a8, b1, ..., h8`. */
  function Squares(): seq<string>
  {
    seq(64, i requires 0 <= i < 64 => Square(i / 8, i % 8))
  }

  /** `file1 + rank1 + file2 + rank2`: a source square followed by a target square. */
  function Move(file1: nat, rank1: nat, file2: nat, rank2: nat): string
    requires file1 < 8 && rank1 < 8 && file2 < 8 && rank2 < 8
  {
    Square(file1, rank1) + Square(file2, rank2)
  }

  /** The 4096 square pairs in the order of the four nested loops. */
  function MoveTokens(): seq<string>
  {
    seq(4096, i requires 0 <= i < 4096 => Move(i / 512, i / 64 % 8, i / 8 % 8, i % 8))
  }

  /** The `add_token` arguments before the square loop, in call order. */
  function Preamble(): seq<string>
  {
    Opening + PieceTokens() + Punctuation + CastlingRights
  }

  /** Every `add_token` argument after the constructor's, in call order. */
  function DefaultAdditions(): seq<string>
  {
    Preamble() + Squares() + MoveTokens() + [MaskToken]
  }

  /** The default vocabulary's tokens, in index order. */
  function DefaultTokens(): seq<string>
  {
    AddAll([PaddingToken], DefaultAdditions())
  }

  /** A two-character square name such as `e4`. */
  predicate IsSquare(t: string)
  {
    |t| == 2 && 'a' <= t[0] <= 'h' && '1' <= t[1] <= '8'
  }

  /** A four-character UCI move without promotion, such as `e2e4`. */
  predicate IsMove(t: string)
  {
    |t| == 4 && IsSquare(t[..2]) && IsSquare(t[2..])
  }

  /**
   `_initialize_default_vocabulary`. The ghost list `added` records the
   `add_token` arguments in call order; the result is the vocabulary those
   calls build, which has 4194 entries.
   */
  method InitializeDefaultVocabulary() returns (v: Vocabulary)
    ensures fresh(v) && v.Valid()
    ensures v.tokens == DefaultTokens()
    ensures v.Size() == 4194
  {
    v := new Vocabulary(PaddingToken);
    ghost var t0 := v.tokens;
    for i := 0 to |Opening|
      invariant v.Valid() && v.tokens == AddAll(t0, Opening[..i])
    {
      v.AddToken(Opening[i]);
      AddAllStep(t0, Opening, i);
    }
    TakeAll(Opening);
    ghost var added := Opening;

    for i := 0 to |Pieces|
      invariant v.Valid() && v.tokens == AddAll(AddAll(t0, added), PieceTokens()[..i])
    {
      v.AddToken([Pieces[i]]);
      AddAllStep(AddAll(t0, added), PieceTokens(), i);
    }
    TakeAll(PieceTokens());
    AddAllConcat(t0, added, PieceTokens());
    added := added + PieceTokens();

    for i := 0 to |Punctuation|
      invariant v.Valid() && v.tokens == AddAll(AddAll(t0, added), Punctuation[..i])
    {
      v.AddToken(Punctuation[i]);
      AddAllStep(AddAll(t0, added), Punctuation, i);
    }
    TakeAll(Punctuation);
    AddAllConcat(t0, added, Punctuation);
    added := added + Punctuation;

    for i := 0 to |CastlingRights|
      invariant v.Valid() && v.tokens == AddAll(AddAll(t0, added), CastlingRights[..i])
    {
      v.AddToken(CastlingRights[i]);
      AddAllStep(AddAll(t0, added), CastlingRights, i);
    }
    TakeAll(CastlingRights);
    AddAllConcat(t0, added, CastlingRights);
    added := added + CastlingRights;

    AddSquares(v);
    AddAllConcat(t0, added, Squares());
    added := added + Squares();
    AddSquarePairs(v);
    AddAllConcat(t0, added, MoveTokens());
    added := added + MoveTokens();
    v.AddToken(MaskToken);
    AddAllSnoc(t0, added, MaskToken);
    added := added + [MaskToken];
    assert added == DefaultAdditions();

    DefaultTokensExplicit();
  }

  /** The loop over files and ranks that adds the 64 square names. */
  method AddSquares(v: Vocabulary)
    requires v.Valid()
    modifies v
    ensures v.Valid() && v.tokens == AddAll(old(v.tokens), Squares())
  {
    ghost var start := v.tokens;
    for file := 0 to 8
      invariant v.Valid() && v.tokens == AddAll(start, Squares()[..8 * file])
    {
      for rank := 0 to 8
        invariant v.Valid() && v.tokens == AddAll(start, Squares()[..8 * file + rank])
      {
        v.AddToken(Square(file, rank));
        SquareIndex(file, rank);
        AddAllStep(start, Squares(), 8 * file + rank);
      }
    }
    TakeAll(Squares());
  }

  /** The four nested loops that add every four-character square pair. */
  method AddSquarePairs(v: Vocabulary)
    requires v.Valid()
    modifies v
    ensures v.Valid() && v.tokens == AddAll(old(v.tokens), MoveTokens())
  {
    ghost var start := v.tokens;
    ghost var moves := MoveTokens();
    for file1 := 0 to 8
      invariant v.Valid() && v.tokens == AddAll(start, moves[..64 * (8 * file1)])
    {
      for rank1 := 0 to 8
        invariant v.Valid() && v.tokens == AddAll(start, moves[..64 * (8 * file1 + rank1)])
      {
        AddMovesFrom(v, file1, rank1);
        MovesFromStep(start, file1, rank1);
      }
    }
    TakeAll(moves);
  }

  /** The two inner loops of `AddSquarePairs`: source square `file1 rank1` with every target square. */
  method AddMovesFrom(v: Vocabulary, file1: nat, rank1: nat)
    requires file1 < 8 && rank1 < 8
    requires v.Valid()
    modifies v
    ensures v.Valid() && v.tokens == AddAll(old(v.tokens), MovesFrom(file1, rank1))
  {
    ghost var start := v.tokens;
    for file2 := 0 to 8
      invariant v.Valid() && v.tokens == AddAll(start, MovesFrom(file1, rank1)[..8 * file2])
    {
      for rank2 := 0 to 8
        invariant v.Valid() && v.tokens == AddAll(start, MovesFrom(file1, rank1)[..8 * file2 + rank2])
      {
        v.AddToken(Move(file1, rank1, file2, rank2));
        DivMod8(file2, rank2);
        AddAllStep(start, MovesFrom(file1, rank1), 8 * file2 + rank2);
      }
    }
    TakeAll(MovesFrom(file1, rank1));
  }

  /** The 64 square pairs from source square `file1 rank1`, in loop order. */
  function MovesFrom(file1: nat, rank1: nat): (moves: seq<string>)
    requires file1 < 8 && rank1 < 8
    ensures |moves| == 64
  {
    seq(64, i requires 0 <= i < 64 => Move(file1, rank1, i / 8, i % 8))
  }

  lemma MoveTokensSlice(file1: nat, rank1: nat)
    requires file1 < 8 && rank1 < 8
    ensures var k := 64 * (8 * file1 + rank1);
      k + 64 <= 4096 && MoveTokens()[k..k + 64] == MovesFrom(file1, rank1)
  {
    var k := 64 * (8 * file1 + rank1);
    forall i | 0 <= i < 64
      ensures MoveTokens()[k + i] == MovesFrom(file1, rank1)[i]
    {
      MoveFromAt(file1, rank1, i);
    }
  }

  lemma MoveFromAt(file1: nat, rank1: nat, i: nat)
    requires file1 < 8 && rank1 < 8 && i < 64
    ensures 64 * (8 * file1 + rank1) + i < 4096
    ensures MoveTokens()[64 * (8 * file1 + rank1) + i] == MovesFrom(file1, rank1)[i]
  {
    var file2, rank2 := i / 8, i % 8;
    assert 64 * (8 * file1 + rank1) + i == 512 * file1 + 64 * rank1 + 8 * file2 + rank2;
    MoveIndex(file1, rank1, file2, rank2);
  }

  /** The square pairs from one source square continue `MoveTokens()` where the previous source left off. */
  lemma MovesFromStep(start: seq<string>, file1: nat, rank1: nat)
    requires file1 < 8 && rank1 < 8
    ensures var k := 64 * (8 * file1 + rank1);
      k + 64 <= 4096 &&
      AddAll(AddAll(start, MoveTokens()[..k]), MovesFrom(file1, rank1)) == AddAll(start, MoveTokens()[..k + 64])
  {
    var k := 64 * (8 * file1 + rank1);
    MoveTokensSlice(file1, rank1);
    AddAllSlices(start, MoveTokens(), k, k + 64);
  }

  /** Square number `8 * file + rank` is `Square(file, rank)`. */
  lemma SquareIndex(file: nat, rank: nat)
    requires file < 8 && rank < 8
    ensures 8 * file + rank < 64 && Squares()[8 * file + rank] == Square(file, rank)
  {
    DivMod8(file, rank);
  }

  /** Square pair number `512 * file1 + 64 * rank1 + 8 * file2 + rank2` is `Move(file1, rank1, file2, rank2)`. */
  lemma MoveIndex(file1: nat, rank1: nat, file2: nat, rank2: nat)
    requires file1 < 8 && rank1 < 8 && file2 < 8 && rank2 < 8
    ensures var k := 512 * file1 + 64 * rank1 + 8 * file2 + rank2;
      k < 4096 && MoveTokens()[k] == Move(file1, rank1, file2, rank2)
  {
    var k := 512 * file1 + 64 * rank1 + 8 * file2 + rank2;
    Digits(file1, rank1, file2, rank2);
  }

  lemma Digits(file1: nat, rank1: nat, file2: nat, rank2: nat)
    requires file1 < 8 && rank1 < 8 && file2 < 8 && rank2 < 8
    ensures var k := 512 * file1 + 64 * rank1 + 8 * file2 + rank2;
      k < 4096 && k / 512 == file1 && k / 64 % 8 == rank1 && k / 8 % 8 == file2 && k % 8 == rank2
  {
    var k := 512 * file1 + 64 * rank1 + 8 * file2 + rank2;
    DivMod8(64 * file1 + 8 * rank1 + file2, rank2);
    DivMod8(8 * file1 + rank1, file2);
    DivMod8(file1, rank1);
    assert k / 64 == 8 * file1 + rank1 by { DivMod64(8 * file1 + rank1, 8 * file2 + rank2); }
    assert k / 512 == file1 by { DivMod512(file1, 64 * rank1 + 8 * file2 + rank2); }
  }

  lemma DivMod8(q: nat, r: nat)
    requires r < 8
    ensures (8 * q + r) / 8 == q && (8 * q + r) % 8 == r
  {
  }

  lemma DivMod64(q: nat, r: nat)
    requires r < 64
    ensures (64 * q + r) / 64 == q
  {
  }

  lemma DivMod512(q: nat, r: nat)
    requires r < 512
    ensures (512 * q + r) / 512 == q
  {
  }

  lemma PiecesDistinct()
    ensures Distinct(PieceTokens())
    ensures forall k :: 0 <= k < 12 ==> |PieceTokens()[k]| == 1
    ensures forall k :: 0 <= k < 12 ==> PieceTokens()[k][0] in Pieces
  {
    forall i, j | 0 <= i < j < 12
      ensures PieceTokens()[i] != PieceTokens()[j]
    {
      assert PieceTokens()[i][0] == Pieces[i] && PieceTokens()[j][0] == Pieces[j];
    }
  }

  lemma Core6Distinct()
    ensures Distinct(Core6)
  {
  }

  lemma Core18Distinct()
    ensures Distinct(Core18)
  {
    Core6Distinct();
    PiecesDistinct();
    DistinctAppend(Core6, PieceTokens());
  }

  lemma Core21Distinct()
    ensures Distinct(Core21)
  {
    Core18Distinct();
    PiecesDistinct();
    DistinctAppend(Core18, [".", "/", "w"]);
  }

  lemma Core22Distinct()
    ensures Distinct(Core22)
  {
    Core21Distinct();
    PiecesDistinct();
    DistinctAppend(Core21, ["-"]);
  }

  lemma Core23Distinct()
    ensures Distinct(Core23)
  {
    Core22Distinct();
    PiecesDistinct();
    DistinctAppend(Core22, ["KQ"]);
  }

  lemma Core26Distinct()
    ensures Distinct(Core26)
  {
    Core23Distinct();
    PiecesDistinct();
    DistinctAppend(Core23, ["Kk", "Qk", "KQk"]);
  }

  lemma CoreTokensDistinct()
    ensures Distinct(CoreTokens)
  {
    Core26Distinct();
    PiecesDistinct();
    DistinctAppend(Core26, ["Kq", "Qq", "KQq", "kq", "Kkq", "Qkq", "KQkq"]);
  }

  /** The calls before the square loop add exactly the core tokens. */
  lemma PreambleTokens()
    ensures AddAll([PaddingToken], Preamble()) == CoreTokens
  {
    var c1 := [PaddingToken];
    AddAllConcat(c1, Opening + PieceTokens() + Punctuation, CastlingRights);
    AddAllConcat(c1, Opening + PieceTokens(), Punctuation);
    AddAllConcat(c1, Opening, PieceTokens());
    Core6Distinct();
    AddAllDistinctAppend(c1, Opening);
    Core18Distinct();
    AddAllDistinctAppend(Core6, PieceTokens());
    PunctuationTokens();
    CastlingTokens();
  }

  lemma PunctuationTokens()
    ensures AddAll(Core18, Punctuation) == Core22
  {
    var fresh3, b, dash := [".", "/", "w"], ["b"], ["-"];
    assert Punctuation == fresh3 + b + dash;
    AddAllConcat(Core18, fresh3 + b, dash);
    AddAllConcat(Core18, fresh3, b);
    Core21Distinct();
    AddAllDistinctAppend(Core18, fresh3);
    assert Core21[8] == "b";
    AddAllPresent(Core21, b);
    Core22Distinct();
    AddAllDistinctAppend(Core21, dash);
  }

  lemma CastlingTokens()
    ensures AddAll(Core22, CastlingRights) == CoreTokens
  {
    var x1, x2, x3, x4, x5, x6 := ["-", "K", "Q"], ["KQ"], ["k"], ["Kk", "Qk", "KQk"], ["q"],
      ["Kq", "Qq", "KQq", "kq", "Kkq", "Qkq", "KQkq"];
    assert CastlingRights == x1 + x2 + x3 + x4 + x5 + x6;
    AddAllConcat(Core22, x1 + x2 + x3 + x4 + x5, x6);
    AddAllConcat(Core22, x1 + x2 + x3 + x4, x5);
    AddAllConcat(Core22, x1 + x2 + x3, x4);
    AddAllConcat(Core22, x1 + x2, x3);
    AddAllConcat(Core22, x1, x2);
    CastlingSteps();
  }

  lemma CastlingSteps()
    ensures AddAll(Core22, ["-", "K", "Q"]) == Core22
    ensures AddAll(Core22, ["KQ"]) == Core23
    ensures AddAll(Core23, ["k"]) == Core23
    ensures AddAll(Core23, ["Kk", "Qk", "KQk"]) == Core26
    ensures AddAll(Core26, ["q"]) == Core26
    ensures AddAll(Core26, ["Kq", "Qq", "KQq", "kq", "Kkq", "Qkq", "KQkq"]) == CoreTokens
  {
    assert Core22[21] == "-" && Core22[16] == "K" && Core22[15] == "Q";
    AddAllPresent(Core22, ["-", "K", "Q"]);
    Core23Distinct();
    AddAllDistinctAppend(Core22, ["KQ"]);
    assert Core23[10] == "k";
    AddAllPresent(Core23, ["k"]);
    Core26Distinct();
    AddAllDistinctAppend(Core23, ["Kk", "Qk", "KQk"]);
    assert Core26[9] == "q";
    AddAllPresent(Core26, ["q"]);
    CoreTokensDistinct();
    AddAllDistinctAppend(Core26, ["Kq", "Qq", "KQq", "kq", "Kkq", "Qkq", "KQkq"]);
  }

  /** A core token is neither a square, nor a square pair, nor the mask token. */
  predicate IsOther(t: string)
  {
    !IsSquare(t) && !IsMove(t) && t != MaskToken
  }

  lemma CoreTokensOther()
    ensures forall k :: 0 <= k < |CoreTokens| ==> IsOther(CoreTokens[k])
  {
    PiecesDistinct();
  }

  lemma FileChar(file: nat)
    requires file < 8
    ensures Files[file] as int == 'a' as int + file
  {
  }

  lemma RankChar(rank: nat)
    requires rank < 8
    ensures Ranks[rank] as int == '1' as int + rank
  {
  }

  /** `Square` is one-to-one and gives square names. */
  lemma SquareProperties(file: nat, rank: nat)
    requires file < 8 && rank < 8
    ensures IsSquare(Square(file, rank))
    ensures Square(file, rank)[0] as int - 'a' as int == file
    ensures Square(file, rank)[1] as int - '1' as int == rank
  {
    FileChar(file);
    RankChar(rank);
  }

  lemma SquaresProperties()
    ensures Distinct(Squares())
    ensures forall k :: 0 <= k < 64 ==> IsSquare(Squares()[k])
  {
    forall k | 0 <= k < 64
      ensures IsSquare(Squares()[k])
    {
      SquareProperties(k / 8, k % 8);
    }
    forall i, j | 0 <= i < j < 64
      ensures Squares()[i] != Squares()[j]
    {
      SquareProperties(i / 8, i % 8);
      SquareProperties(j / 8, j % 8);
    }
  }

  lemma MovesProperties()
    ensures Distinct(MoveTokens())
    ensures forall k :: 0 <= k < 4096 ==> IsMove(MoveTokens()[k])
  {
    forall k | 0 <= k < 4096
      ensures IsMove(MoveTokens()[k])
    {
      MoveProperties(k / 512, k / 64 % 8, k / 8 % 8, k % 8);
    }
    forall i, j | 0 <= i < j < 4096
      ensures MoveTokens()[i] != MoveTokens()[j]
    {
      MoveTokenInjective(i, j);
    }
  }

  lemma MoveTokenInjective(i: nat, j: nat)
    requires i < 4096 && j < 4096 && i != j
    ensures MoveTokens()[i] != MoveTokens()[j]
  {
    MoveProperties(i / 512, i / 64 % 8, i / 8 % 8, i % 8);
    MoveProperties(j / 512, j / 64 % 8, j / 8 % 8, j % 8);
    Recompose(i);
    Recompose(j);
  }

  /** `Move` is one-to-one and gives UCI moves. */
  lemma MoveProperties(file1: nat, rank1: nat, file2: nat, rank2: nat)
    requires file1 < 8 && rank1 < 8 && file2 < 8 && rank2 < 8
    ensures IsMove(Move(file1, rank1, file2, rank2))
    ensures var m := Move(file1, rank1, file2, rank2);
      && m[0] as int - 'a' as int == file1 && m[1] as int - '1' as int == rank1
      && m[2] as int - 'a' as int == file2 && m[3] as int - '1' as int == rank2
  {
    var m := Move(file1, rank1, file2, rank2);
    SquareProperties(file1, rank1);
    SquareProperties(file2, rank2);
    assert m[..2] == Square(file1, rank1) && m[2..] == Square(file2, rank2);
  }

  lemma Recompose(k: nat)
    requires k < 4096
    ensures k == 512 * (k / 512) + 64 * (k / 64 % 8) + 8 * (k / 8 % 8) + k % 8
  {
    var q1, q2 := k / 8, k / 64;
    assert k == 8 * q1 + k % 8;
    assert q1 == 8 * q2 + q1 % 8;
    assert q2 == 8 * (k / 512) + q2 % 8;
  }

  /** The explicit default token list has no duplicates. */
  lemma ExplicitDistinct()
    ensures Distinct(CoreTokens + Squares() + MoveTokens() + [MaskToken])
  {
    CoreTokensDistinct();
    CoreTokensOther();
    SquaresProperties();
    MovesProperties();
    var c, sq, mv := CoreTokens, Squares(), MoveTokens();
    DistinctAppend(c, sq);
    DistinctAppend(c + sq, mv);
    DistinctAppend(c + sq + mv, [MaskToken]);
  }

  /** Computes the default vocabulary: 33 core tokens, the 64 squares, the 4096 square pairs and `?`. */
  lemma DefaultTokensExplicit()
    ensures DefaultTokens() == CoreTokens + Squares() + MoveTokens() + [MaskToken]
    ensures |DefaultTokens()| == 4194
  {
    var c1, c, sq, mv := [PaddingToken], CoreTokens, Squares(), MoveTokens();
    PreambleTokens();
    AddAllConcat(c1, Preamble() + sq + mv, [MaskToken]);
    AddAllConcat(c1, Preamble() + sq, mv);
    AddAllConcat(c1, Preamble(), sq);
    ExplicitDistinct();
    DistinctPrefix(c + sq + mv, [MaskToken]);
    DistinctPrefix(c + sq, mv);
    AddAllDistinctAppend(c, sq);
    AddAllDistinctAppend(c + sq, mv);
    AddAllDistinctAppend(c + sq + mv, [MaskToken]);
  }

  /** Without the square-pair loop the same calls would build 98 tokens: 33 core tokens, 64 squares and `?`. */
  lemma SizeWithoutPairs()
    ensures |AddAll([PaddingToken], Preamble() + Squares() + [MaskToken])| == 98
  {
    var c1, c, sq := [PaddingToken], CoreTokens, Squares();
    PreambleTokens();
    AddAllConcat(c1, Preamble() + sq, [MaskToken]);
    AddAllConcat(c1, Preamble(), sq);
    CoreTokensDistinct();
    CoreTokensOther();
    SquaresProperties();
    DistinctAppend(c, sq);
    DistinctAppend(c + sq, [MaskToken]);
    AddAllDistinctAppend(c, sq);
    AddAllDistinctAppend(c + sq, [MaskToken]);
  }

  /** Every square name is in `Squares()`. */
  lemma SquareOf(t: string)
    requires IsSquare(t)
    ensures var k := 8 * (t[0] as int - 'a' as int) + (t[1] as int - '1' as int);
      0 <= k < 64 && Squares()[k] == t
  {
    var file, rank := t[0] as int - 'a' as int, t[1] as int - '1' as int;
    SquareIndex(file, rank);
    SquareProperties(file, rank);
    FileChar(file);
    RankChar(rank);
    assert Square(file, rank) == t;
  }

  /** Every four-character UCI move without promotion is in `MoveTokens()`. */
  lemma MoveOf(t: string)
    requires IsMove(t)
    ensures exists k :: 0 <= k < 4096 && MoveTokens()[k] == t
  {
    var source, target := t[..2], t[2..];
    var file1, rank1 := source[0] as int - 'a' as int, source[1] as int - '1' as int;
    var file2, rank2 := target[0] as int - 'a' as int, target[1] as int - '1' as int;
    SquareOf(source);
    SquareOf(target);
    SquareIndex(file1, rank1);
    SquareIndex(file2, rank2);
    MoveIndex(file1, rank1, file2, rank2);
    assert t == source + target;
  }

  /** Where each kind of token sits in the default vocabulary. */
  lemma DefaultLayout()
    ensures |DefaultTokens()| == 4194
    ensures forall i :: 0 <= i < 33 ==> DefaultTokens()[i] == CoreTokens[i]
    ensures forall k :: 0 <= k < 64 ==> DefaultTokens()[33 + k] == Squares()[k]
    ensures forall k :: 0 <= k < 4096 ==> DefaultTokens()[97 + k] == MoveTokens()[k]
    ensures DefaultTokens()[4193] == MaskToken
  {
    DefaultTokensExplicit();
  }

  lemma DefaultTokensDistinct()
    ensures Distinct(DefaultTokens())
  {
    DefaultTokensExplicit();
    ExplicitDistinct();
  }

  /** The default vocabulary holds exactly the core tokens, the square names, the square pairs and `?`. */
  lemma DefaultMembership(t: string)
    ensures t in DefaultTokens() <==> t in CoreTokens || IsSquare(t) || IsMove(t) || t == MaskToken
  {
    if t in DefaultTokens() {
      DefaultTokenKind(t);
    } else if t in CoreTokens || IsSquare(t) || IsMove(t) || t == MaskToken {
      DefaultTokenPresent(t);
    }
  }

  lemma DefaultTokenKind(t: string)
    requires t in DefaultTokens()
    ensures t in CoreTokens || IsSquare(t) || IsMove(t) || t == MaskToken
  {
    var all := DefaultTokens();
    var i :| 0 <= i < |all| && all[i] == t;
    if i < 33 {
      assert t == CoreTokens[i] by { DefaultLayout(); }
      assert t in CoreTokens;
    } else if i < 97 {
      assert IsSquare(t) by {
        DefaultLayout();
        SquaresProperties();
        assert t == Squares()[i - 33];
      }
    } else if i < 4193 {
      assert IsMove(t) by {
        DefaultLayout();
        MovesProperties();
        assert t == MoveTokens()[i - 97];
      }
    } else {
      assert i == 4193 by { DefaultLayout(); }
      assert t == MaskToken by { DefaultLayout(); }
    }
  }

  lemma DefaultTokenPresent(t: string)
    requires t in CoreTokens || IsSquare(t) || IsMove(t) || t == MaskToken
    ensures t in DefaultTokens()
  {
    if t in CoreTokens {
      CorePresent(t);
    } else if IsSquare(t) {
      SquarePresent(t);
    } else if IsMove(t) {
      MovePresent(t);
    } else {
      DefaultAt(4193);
    }
  }

  lemma CorePresent(t: string)
    requires t in CoreTokens
    ensures t in DefaultTokens()
  {
    var i :| 0 <= i < 33 && CoreTokens[i] == t;
    DefaultAt(i);
  }

  lemma SquarePresent(t: string)
    requires IsSquare(t)
    ensures t in DefaultTokens()
  {
    var k := 8 * (t[0] as int - 'a' as int) + (t[1] as int - '1' as int);
    SquareOf(t);
    DefaultAt(33 + k);
  }

  lemma MovePresent(t: string)
    requires IsMove(t)
    ensures t in DefaultTokens()
  {
    MoveOf(t);
    var k :| 0 <= k < 4096 && MoveTokens()[k] == t;
    DefaultAt(97 + k);
  }

  /** Position `i` of the default vocabulary, read off the explicit list. */
  lemma DefaultAt(i: nat)
    requires i < 4194
    ensures |DefaultTokens()| == 4194
    ensures i < 33 ==> DefaultTokens()[i] == CoreTokens[i]
    ensures 33 <= i < 97 ==> DefaultTokens()[i] == Squares()[i - 33]
    ensures 97 <= i < 4193 ==> DefaultTokens()[i] == MoveTokens()[i - 97]
    ensures i == 4193 ==> DefaultTokens()[i] == MaskToken
  {
    DefaultLayout();
    if 33 <= i < 97 {
      assert DefaultTokens()[33 + (i - 33)] == Squares()[i - 33];
    } else if 97 <= i < 4193 {
      assert DefaultTokens()[97 + (i - 97)] == MoveTokens()[i - 97];
    }
  }

  /** The index of every default token is its position in the explicit list. */
  lemma DefaultIndexOf(i: nat)
    requires i < |DefaultTokens()|
    ensures IndexOf(DefaultTokens(), DefaultTokens()[i]) == i
  {
    DefaultTokensDistinct();
    IndexOfDistinct(DefaultTokens(), i);
  }

  /**
   A few positions: padding is 0, the draw marker 4, `.` 18, `/` 19,
   `e2e4` is 97 + 2147 and `?` is the last, 4193.
   */
  lemma DefaultPositions()
    ensures |DefaultTokens()| == 4194
    ensures DefaultTokens()[0] == PaddingToken
    ensures DefaultTokens()[4] == "<1/2-1/2>"
    ensures DefaultTokens()[18] == "."
    ensures DefaultTokens()[19] == "/"
    ensures DefaultTokens()[2244] == "e2e4"
    ensures DefaultTokens()[4193] == MaskToken
  {
    DefaultLayout();
    CorePositions();
    E2E4();
  }

  lemma CorePositions()
    ensures CoreTokens[0] == PaddingToken && CoreTokens[4] == "<1/2-1/2>"
    ensures CoreTokens[18] == "." && CoreTokens[19] == "/"
  {
    assert CoreTokens[18] == Core21[18];
    assert CoreTokens[19] == Core21[19];
    assert CoreTokens[4] == Core6[4];
  }

  lemma E2E4()
    ensures MoveTokens()[2147] == "e2e4"
  {
    MoveIndex(4, 1, 4, 3);
    assert Move(4, 1, 4, 3) == "e2e4";
  }
}
