/**
 What the reference definition of `extract_training_samples` says about the
 buffers and the board: `before ++ after` is always one contiguous stretch
 of the word stream, `after` fills up before anything is pushed, the moves are
 pushed in order and one at a time, and the drain refills `after` with the
 outcome marker followed by padding.
 */
module PgnProperties {
  import opened Text
  import opened SpecialTokens
  import opened Pgn

  /** Position `i` of a stretch is word `a + i` of the stream. */
  lemma {:induction false} SliceAt(moves: seq<string>, result: string, w: nat, a: nat, b: nat, i: nat)
    requires w >= 1 && a <= b && i < b - a
    ensures Slice(moves, result, w, a, b)[i] == Word(moves, result, w, a + i)
    decreases b - a
  {
    if i < b - a - 1 {
      SliceAt(moves, result, w, a, b - 1, i);
    }
  }

  /** `Word` reads the stream: padding and the start marker, the moves, the outcome marker, padding. */
  lemma WordStream(moves: seq<string>, result: string, w: nat, j: nat)
    requires w >= 1 && j < |Stream(moves, result, w)|
    ensures Word(moves, result, w, j) == Stream(moves, result, w)[j]
  {
    var s := Stream(moves, result, w);
    var b := InitialBefore(w);
    assert s == b + moves + [OutcomeToken(result)] + Repeat(PaddingToken, w);
    if j < w {
      assert s[j] == b[j];
    } else if j < w + |moves| {
      assert s[j] == moves[j - w];
    } else if j == w + |moves| {
      assert s[j] == OutcomeToken(result);
    } else {
      assert s[j] == Repeat(PaddingToken, w)[j - w - |moves| - 1];
    }
  }

  /** The recursive stretch is the slice of the closed-form stream. */
  lemma SliceStream(moves: seq<string>, result: string, w: nat, a: nat, b: nat)
    requires w >= 1 && a <= b <= |Stream(moves, result, w)|
    ensures Slice(moves, result, w, a, b) == Stream(moves, result, w)[a..b]
  {
    var s := Stream(moves, result, w);
    forall i | 0 <= i < b - a
      ensures Slice(moves, result, w, a, b)[i] == s[a..b][i]
    {
      SliceAt(moves, result, w, a, b, i);
      WordStream(moves, result, w, a + i);
    }
  }

  /** Two adjacent stretches make one. */
  lemma {:induction false} SliceAppend(moves: seq<string>, result: string, w: nat, a: nat, b: nat, c: nat)
    requires w >= 1 && a <= b <= c
    ensures Slice(moves, result, w, a, b) + Slice(moves, result, w, b, c) == Slice(moves, result, w, a, c)
    decreases c - b
  {
    if b < c {
      SliceAppend(moves, result, w, a, b, c - 1);
    }
  }

  /** `before` always holds `w` words and `after` at most `w`. */
  lemma BufferLengths(moves: seq<string>, result: string, w: nat, k: nat)
    requires w >= 1 && k <= SampleCount(|moves|, w)
    ensures |Before(moves, result, w, k)| == w
    ensures |After(moves, result, w, k)| == AfterCount(|moves|, w, k) <= w
  {
  }

  /**
   The window invariant: after `k` samples, `before ++ after` is the stretch of
   the stream from the number of moves pushed up to word `w + k`.
   */
  lemma WindowStretch(moves: seq<string>, result: string, w: nat, k: nat)
    requires w >= 1 && k <= SampleCount(|moves|, w)
    ensures var p := PlayedCount(|moves|, w, k);
      Before(moves, result, w, k) + After(moves, result, w, k) == Stream(moves, result, w)[p..w + k]
  {
    var p := PlayedCount(|moves|, w, k);
    SliceAppend(moves, result, w, p, p + w, w + k);
    SliceStream(moves, result, w, p, w + k);
  }

  /**
   While `after` fills up, nothing is pushed: `before` is still the initial
   buffer and `after` holds the moves seen so far.
   */
  lemma FillPhase(moves: seq<string>, result: string, w: nat, k: nat)
    requires w >= 1 && k <= Min(|moves|, w)
    ensures PlayedCount(|moves|, w, k) == 0
    ensures Before(moves, result, w, k) == InitialBefore(w)
    ensures After(moves, result, w, k) == moves[..k]
  {
    var s := Stream(moves, result, w);
    SliceStream(moves, result, w, 0, w);
    SliceStream(moves, result, w, w, w + k);
    assert s == InitialBefore(w) + moves + ([OutcomeToken(result)] + Repeat(PaddingToken, w));
    assert s[..w] == InitialBefore(w);
    assert s[w..w + k] == moves[..k];
  }

  /**
   Once `after` is full and moves remain, every step pushes one move: after `k`
   samples the first `k - w` moves are on the board and `after` holds the next `w`.
   */
  lemma SlidePhase(moves: seq<string>, result: string, w: nat, k: nat)
    requires w >= 1 && w <= k <= |moves|
    ensures PlayedCount(|moves|, w, k) == k - w
    ensures After(moves, result, w, k) == moves[k - w..k]
  {
    var s := Stream(moves, result, w);
    SliceStream(moves, result, w, k, w + k);
    assert s == InitialBefore(w) + moves + ([OutcomeToken(result)] + Repeat(PaddingToken, w));
    assert s[k..w + k] == moves[k - w..k];
  }

  /**
   In the drain, `after` keeps its length: the moves not yet pushed, then the
   outcome marker (appended at index 0), then one padding word per later step.
   */
  lemma DrainPhase(moves: seq<string>, result: string, w: nat, k: nat)
    requires w >= 1 && |moves| < k <= SampleCount(|moves|, w)
    ensures PlayedCount(|moves|, w, k) == k - Min(|moves|, w)
    ensures After(moves, result, w, k)
      == moves[PlayedCount(|moves|, w, k)..] + [OutcomeToken(result)] + Repeat(PaddingToken, k - |moves| - 1)
  {
    var p := PlayedCount(|moves|, w, k);
    assert After(moves, result, w, k) == Stream(moves, result, w)[p + w..w + k] by {
      SliceStream(moves, result, w, p + w, w + k);
    }
    StreamTail(moves, result, w, p, k);
  }

  /** A stretch of the stream from an unpushed move past the outcome marker. */
  lemma StreamTail(moves: seq<string>, result: string, w: nat, p: nat, k: nat)
    requires w >= 1 && p <= |moves| < k <= |moves| + w
    ensures Stream(moves, result, w)[p + w..w + k]
      == moves[p..] + [OutcomeToken(result)] + Repeat(PaddingToken, k - |moves| - 1)
  {
    var pad := Repeat(PaddingToken, w);
    TailWindow(InitialBefore(w), moves, OutcomeToken(result), pad, p + w, w + k);
    assert pad[..k - |moves| - 1] == Repeat(PaddingToken, k - |moves| - 1);
  }

  /** A stretch that starts among the moves and ends past the outcome marker. */
  lemma TailWindow<T>(h: seq<T>, ms: seq<T>, x: T, pad: seq<T>, lo: nat, hi: nat)
    requires |h| <= lo <= |h| + |ms| < hi <= |h| + |ms| + 1 + |pad|
    ensures (h + ms + [x] + pad)[lo..hi] == ms[lo - |h|..] + [x] + pad[..hi - |h| - |ms| - 1]
  {
    var s := h + ms + [x] + pad;
    assert s == (h + ms) + ([x] + pad);
    assert s[lo..hi] == (h + ms)[lo..] + ([x] + pad)[..hi - |h| - |ms|];
    assert ([x] + pad)[..hi - |h| - |ms|] == [x] + pad[..hi - |h| - |ms| - 1];
  }

  /**
   The board advances by at most one move per sample: not at all while
   `after` fills, by one move afterwards. All moves are on the board at the end.
   */
  lemma PlayedSteps(m: nat, w: nat, k: nat)
    requires k < SampleCount(m, w)
    ensures PlayedCount(m, w, k + 1) == PlayedCount(m, w, k) + (if k < Min(m, w) then 0 else 1)
    ensures PlayedCount(m, w, 0) == 0 && PlayedCount(m, w, SampleCount(m, w)) == m
  {
  }

  /** The generator's output, item by item: item `k` is sample number `k + 1`, joined with spaces. */
  lemma {:induction false} SamplesIndex(moves: seq<string>, fens: seq<string>, result: string, w: nat, n: nat, k: nat)
    requires w >= 1 && k < n <= SampleCount(|moves|, w) && |fens| == |moves| + 1
    ensures SamplesUpTo(moves, fens, result, w, n)[k] == Join(SampleWords(moves, fens, result, w, k + 1), ' ')
    decreases n
  {
    var prefix := SamplesUpTo(moves, fens, result, w, n - 1);
    assert SamplesUpTo(moves, fens, result, w, n) == prefix + [Join(SampleWords(moves, fens, result, w, n), ' ')];
    if k < n - 1 {
      SamplesIndex(moves, fens, result, w, n - 1, k);
    }
  }

  /** A sample has `2 * w` buffer and padding words around the trimmed FEN fields. */
  lemma SampleWordsLength(moves: seq<string>, fens: seq<string>, result: string, w: nat, k: nat)
    requires w >= 1 && 1 <= k <= SampleCount(|moves|, w) && |fens| == |moves| + 1
    ensures |SampleWords(moves, fens, result, w, k)| == 2 * w + |TrimFen(fens[PlayedCount(|moves|, w, k)])|
  {
  }

  /** A FEN record with its six fields loses the halfmove clock and the fullmove number. */
  lemma TrimFenFields(fen: string)
    requires |Split(fen, ' ')| == 6
    ensures TrimFen(fen) == Split(fen, ' ')[..4]
  {
  }
}
