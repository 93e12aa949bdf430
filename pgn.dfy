/**
 `extract_training_samples` of chess_jepa/pgn.py: two FIFO buffers of move
 strings, `before` (always `windowSize` words) and `after` (at most
 `windowSize`), slide over the game. Each step emits one sample: `before`,
 the first four FEN fields of the board, `after`, and padding up to
 `windowSize`.

 The python-chess game is replaced by its parts: the main-line moves in UCI
 notation, the `Result` header, and `fens`, where `fens[j]` is what
 `board.fen()` returns once the first `j` moves have been pushed on the game's
 starting board.

 The reference definition is a window over one stream of words: the initial
 `before` buffer, then the moves, then the outcome marker, then padding. After
 `k` steps, `before ++ after` is the stretch of that stream that ends just
 before word `windowSize + k` and is `windowSize + |after|` words long.
 */
module Pgn {
  import opened Text
  import opened SpecialTokens

  function Min(a: nat, b: nat): nat
  {
    if a < b then a else b
  }

  /** `[PADDING_TOKEN] * (window_size - 1) + [START_TOKEN]`. */
  function InitialBefore(w: nat): (r: seq<string>)
    requires w >= 1
    ensures |r| == w && r[w - 1] == StartToken
    ensures forall k :: 0 <= k < w - 1 ==> r[k] == PaddingToken
  {
    Repeat(PaddingToken, w - 1) + [StartToken]
  }

  /** `"<" + game.headers["Result"] + ">"`. */
  function OutcomeToken(result: string): string
  {
    "<" + result + ">"
  }

  /** `board.fen().split(" ")[:-2]`: every field but the last two (none when there are fewer than two). */
  function TrimFen(fen: string): seq<string>
  {
    var fields := Split(fen, ' ');
    if |fields| >= 2 then fields[..|fields| - 2] else []
  }

  /** Word `j` of the stream of every word that ever passes through the buffers. */
  function Word(moves: seq<string>, result: string, w: nat, j: nat): string
    requires w >= 1
  {
    if j < w - 1 then PaddingToken
    else if j == w - 1 then StartToken
    else if j < w + |moves| then moves[j - w]
    else if j == w + |moves| then OutcomeToken(result)
    else PaddingToken
  }

  /** Words `a` to `b - 1` of the stream. */
  function Slice(moves: seq<string>, result: string, w: nat, a: nat, b: nat): (r: seq<string>)
    requires w >= 1 && a <= b
    ensures |r| == b - a
    decreases b - a
  {
    if a == b then [] else Slice(moves, result, w, a, b - 1) + [Word(moves, result, w, b - 1)]
  }

  /** The whole stream: the initial `before` buffer, the moves, the outcome marker and `w` words of padding. */
  function Stream(moves: seq<string>, result: string, w: nat): (s: seq<string>)
    requires w >= 1
    ensures |s| == 2 * w + |moves| + 1
  {
    InitialBefore(w) + moves + [OutcomeToken(result)] + Repeat(PaddingToken, w)
  }

  /** The number of samples: one per move, then one per word left in `after`. */
  function SampleCount(m: nat, w: nat): nat
  {
    m + Min(m, w)
  }

  /** The length of `after` once `k` samples have been emitted. */
  function AfterCount(m: nat, w: nat, k: nat): nat
  {
    if k <= m then Min(k, w) else Min(m, w)
  }

  /** The number of moves pushed on the board once `k` samples have been emitted. */
  function PlayedCount(m: nat, w: nat, k: nat): nat
    requires k <= SampleCount(m, w)
  {
    k - AfterCount(m, w, k)
  }

  /** `before_moves` once `k` samples have been emitted. */
  function Before(moves: seq<string>, result: string, w: nat, k: nat): seq<string>
    requires w >= 1 && k <= SampleCount(|moves|, w)
  {
    var p := PlayedCount(|moves|, w, k);
    Slice(moves, result, w, p, p + w)
  }

  /** `after_moves` once `k` samples have been emitted. */
  function After(moves: seq<string>, result: string, w: nat, k: nat): seq<string>
    requires w >= 1 && k <= SampleCount(|moves|, w)
  {
    Slice(moves, result, w, PlayedCount(|moves|, w, k) + w, w + k)
  }

  /** The words of sample number `k` (counting from 1), before they are joined with spaces. */
  function SampleWords(moves: seq<string>, fens: seq<string>, result: string, w: nat, k: nat): seq<string>
    requires w >= 1 && 1 <= k <= SampleCount(|moves|, w) && |fens| == |moves| + 1
  {
    var p := PlayedCount(|moves|, w, k);
    var after := After(moves, result, w, k);
    Before(moves, result, w, k) + TrimFen(fens[p]) + after + Repeat(PaddingToken, w - |after|)
  }

  /** The first `k` samples the generator yields, in order. */
  function SamplesUpTo(moves: seq<string>, fens: seq<string>, result: string, w: nat, k: nat): (r: seq<string>)
    requires w >= 1 && k <= SampleCount(|moves|, w) && |fens| == |moves| + 1
    ensures |r| == k
  {
    if k == 0 then []
    else SamplesUpTo(moves, fens, result, w, k - 1) + [Join(SampleWords(moves, fens, result, w, k), ' ')]
  }

  /** Everything the generator yields, in order. */
  function Samples(moves: seq<string>, fens: seq<string>, result: string, w: nat): seq<string>
    requires w >= 1 && |fens| == |moves| + 1
  {
    SamplesUpTo(moves, fens, result, w, SampleCount(|moves|, w))
  }

  /**
   The buffers and the moves pushed on the board, as windows over the stream:
   `before` is the `w` words from position `p`, `after` the words from `p + w`
   up to `e`, and the moves pushed are the first `p`.
   */
  ghost predicate Window(moves: seq<string>, result: string, w: nat, p: nat, e: nat,
                         before: seq<string>, after: seq<string>, played: seq<string>)
    requires w >= 1
  {
    && p <= |moves| && p + w <= e
    && before == Slice(moves, result, w, p, p + w)
    && after == Slice(moves, result, w, p + w, e)
    && played == moves[..p]
  }

  /**
   `extract_training_samples(input, window_size)`: the fill-and-slide loop
   over the moves, then the drain loop over what is left in `after`. The
   samples are returned in the order they are yielded, together with the
   moves pushed on the board, in the order they were pushed.
   */
  method ExtractTrainingSamples(moves: seq<string>, fens: seq<string>, result: string, windowSize: nat)
    returns (samples: seq<string>, played: seq<string>)
    requires windowSize >= 1 && |fens| == |moves| + 1
    ensures samples == Samples(moves, fens, result, windowSize)
    ensures |samples| == |moves| + Min(|moves|, windowSize)
    ensures played == moves
  {
    var w := windowSize;
    ghost var m := |moves|;
    var before := InitialBefore(w);
    var after: seq<string> := [];
    played := [];
    samples := [];
    ghost var p, e, k := 0, w, 0;
    assert Window(moves, result, w, p, e, before, after, played) by {
      InitialWindow(moves, result, w);
    }
    for i := 0 to |moves|
      invariant k == i && e == w + k && p + |after| == k && |after| <= w && (p > 0 ==> |after| == w)
      invariant Window(moves, result, w, p, e, before, after, played)
      invariant samples == SamplesUpTo(moves, fens, result, w, k)
    {
      ghost var p0, e0, k0, before0, after0, played0, samples0 := p, e, k, before, after, played, samples;
      if |after| < w {
        after := after + [moves[i]];
        e := e + 1;
        assert Window(moves, result, w, p, e, before, after, played) by {
          Extend(moves, result, w, p, e0, before, after0, played, moves[i], e, after);
        }
      } else {
        before := before[1..];
        var moveToPlay := after[0];
        after := after[1..];
        played := played + [moveToPlay];
        before := before + [moveToPlay];
        after := after + [moves[i]];
        p, e := p + 1, e + 1;
        assert Window(moves, result, w, p, e, before, after, played) by {
          Advance(moves, result, w, p0, e0, before0, after0, played0, moves[i], p, e, before, after, played);
        }
      }
      k := k + 1;
      var trimmed := TrimFen(fens[|played|]);
      samples := samples + [Join(before + trimmed + after + Repeat(PaddingToken, w - |after|), ' ')];
      assert samples == SamplesUpTo(moves, fens, result, w, k) by {
        FillSample(moves, fens, result, w, k0, k, p, e, before, after, played, samples0, samples);
      }
    }
    samples, played := Drain(moves, fens, result, w, before, after, played, samples, p);
  }

  /**
   The second loop of `extract_training_samples`: each word left in `after`
   is pushed on the board, and `after` takes the outcome marker, then
   padding, in its place.
   */
  method Drain(moves: seq<string>, fens: seq<string>, result: string, w: nat,
               before0: seq<string>, after0: seq<string>, played0: seq<string>, samples0: seq<string>, ghost p0: nat)
    returns (samples: seq<string>, played: seq<string>)
    requires w >= 1 && |fens| == |moves| + 1
    requires p0 + |after0| == |moves| && |after0| == Min(|moves|, w)
    requires Window(moves, result, w, p0, w + |moves|, before0, after0, played0)
    requires samples0 == SamplesUpTo(moves, fens, result, w, |moves|)
    ensures samples == Samples(moves, fens, result, w)
    ensures played == moves
  {
    ghost var m := |moves|;
    var before, after := before0, after0;
    samples, played := samples0, played0;
    ghost var p, e, k := p0, w + m, m;
    var outcome := OutcomeToken(result);
    var remaining := |after|;
    for index := 0 to remaining
      invariant remaining == Min(m, w) && k == m + index && e == w + k && p + remaining == k && |after| == remaining
      invariant Window(moves, result, w, p, e, before, after, played)
      invariant samples == SamplesUpTo(moves, fens, result, w, k)
    {
      ghost var p0, e0, k0, before0, after0, played0, samples0 := p, e, k, before, after, played, samples;
      var next := if index == 0 then outcome else PaddingToken;
      before := before[1..];
      var moveToPlay := after[0];
      after := after[1..];
      played := played + [moveToPlay];
      before := before + [moveToPlay];
      after := after + [next];
      p, e := p + 1, e + 1;
      assert Window(moves, result, w, p, e, before, after, played) by {
        Advance(moves, result, w, p0, e0, before0, after0, played0, next, p, e, before, after, played);
      }
      k := k + 1;
      var trimmed := TrimFen(fens[|played|]);
      samples := samples + [Join(before + trimmed + after + Repeat(PaddingToken, w - |after|), ' ')];
      assert samples == SamplesUpTo(moves, fens, result, w, k) by {
        DrainSample(moves, fens, result, w, k0, k, p, e, before, after, played, samples0, samples);
      }
    }
  }

  // ---------------------------------------------------------------------------
  // Steps of the method, stated on the reference definition

  /** The initial `before` buffer is the first `w` words of the stream. */
  lemma {:induction false} InitialWindow(moves: seq<string>, result: string, w: nat)
    requires w >= 1
    ensures Window(moves, result, w, 0, w, InitialBefore(w), [], [])
  {
    PaddingSlice(moves, result, w, w - 1);
  }

  lemma {:induction false} PaddingSlice(moves: seq<string>, result: string, w: nat, b: nat)
    requires w >= 1 && b <= w - 1
    ensures Slice(moves, result, w, 0, b) == Repeat(PaddingToken, b)
  {
    if b > 0 {
      PaddingSlice(moves, result, w, b - 1);
    }
  }

  /** The sample yielded from the state after `k + 1` steps is sample number `k + 1`. */
  lemma {:induction false} SampleAt(moves: seq<string>, fens: seq<string>, result: string, w: nat, k: nat, p: nat, e: nat,
                 before: seq<string>, after: seq<string>, played: seq<string>, samples: seq<string>)
    requires w >= 1 && k < SampleCount(|moves|, w) && p == PlayedCount(|moves|, w, k + 1) && e == w + k + 1
    requires |fens| == |moves| + 1 && samples == SamplesUpTo(moves, fens, result, w, k)
    requires Window(moves, result, w, p, e, before, after, played)
    ensures samples
      + [Join(before + TrimFen(fens[|played|]) + after + Repeat(PaddingToken, w - |after|), ' ')]
      == SamplesUpTo(moves, fens, result, w, k + 1)
  {
  }

  /** `SampleAt` for the loop over the moves, where `after` fills up to `w` words before anything is pushed. */
  lemma {:induction false} FillSample(moves: seq<string>, fens: seq<string>, result: string, w: nat, k0: nat, k: nat, p: nat, e: nat,
                   before: seq<string>, after: seq<string>, played: seq<string>, samples0: seq<string>, samples: seq<string>)
    requires w >= 1 && k == k0 + 1 && k <= |moves| && e == w + k
    requires |fens| == |moves| + 1 && samples0 == SamplesUpTo(moves, fens, result, w, k0)
    requires Window(moves, result, w, p, e, before, after, played)
    requires p + |after| == k && |after| <= w && (p > 0 ==> |after| == w)
    requires samples == samples0 + [Join(before + TrimFen(fens[|played|]) + after + Repeat(PaddingToken, w - |after|), ' ')]
    ensures samples == SamplesUpTo(moves, fens, result, w, k)
  {
    SampleAt(moves, fens, result, w, k0, p, e, before, after, played, samples0);
  }

  /** `SampleAt` for the drain loop, where `after` keeps the length it had when the moves ran out. */
  lemma {:induction false} DrainSample(moves: seq<string>, fens: seq<string>, result: string, w: nat, k0: nat, k: nat, p: nat, e: nat,
                    before: seq<string>, after: seq<string>, played: seq<string>, samples0: seq<string>, samples: seq<string>)
    requires w >= 1 && k == k0 + 1 && |moves| < k <= SampleCount(|moves|, w) && e == w + k
    requires |fens| == |moves| + 1 && samples0 == SamplesUpTo(moves, fens, result, w, k0)
    requires Window(moves, result, w, p, e, before, after, played)
    requires p + |after| == k && |after| == Min(|moves|, w)
    requires samples == samples0 + [Join(before + TrimFen(fens[|played|]) + after + Repeat(PaddingToken, w - |after|), ' ')]
    ensures samples == SamplesUpTo(moves, fens, result, w, k)
  {
    SampleAt(moves, fens, result, w, k0, p, e, before, after, played, samples0);
  }
  /** The first word of a non-empty stretch, and the stretch without it. */
  lemma {:induction false} SliceTail(moves: seq<string>, result: string, w: nat, a: nat, b: nat)
    requires w >= 1 && a < b
    ensures Slice(moves, result, w, a, b)[0] == Word(moves, result, w, a)
    ensures Slice(moves, result, w, a, b)[1..] == Slice(moves, result, w, a + 1, b)
    decreases b - a
  {
    if a + 1 < b {
      SliceTail(moves, result, w, a, b - 1);
    }
  }

  /** The next word of the stream goes to the tail of `after`. */
  lemma {:induction false} Extend(moves: seq<string>, result: string, w: nat, p: nat, e: nat,
               before: seq<string>, after: seq<string>, played: seq<string>, next: string,
               e': nat, after': seq<string>)
    requires w >= 1 && next == Word(moves, result, w, e) && e' == e + 1 && after' == after + [next]
    requires Window(moves, result, w, p, e, before, after, played)
    ensures Window(moves, result, w, p, e', before, after', played)
  {
  }

  /**
   The head of a non-empty `after` moves to `before` and is pushed on the
   board, and the next word of the stream goes to the tail of `after`.
   */
  lemma {:induction false} Advance(moves: seq<string>, result: string, w: nat, p: nat, e: nat,
                before: seq<string>, after: seq<string>, played: seq<string>, next: string,
                p': nat, e': nat, before': seq<string>, after': seq<string>, played': seq<string>)
    requires w >= 1 && p + w < e && p < |moves| && next == Word(moves, result, w, e)
    requires Window(moves, result, w, p, e, before, after, played)
    requires p' == p + 1 && e' == e + 1
    requires before' == before[1..] + [after[0]] && after' == after[1..] + [next] && played' == played + [after[0]]
    ensures Window(moves, result, w, p', e', before', after', played')
  {
    assert before' == Slice(moves, result, w, p', p' + w) by {
      SliceTail(moves, result, w, p, p + w);
      SliceTail(moves, result, w, p + w, e);
    }
    assert after' == Slice(moves, result, w, p' + w, e') by {
      SliceTail(moves, result, w, p + w, e);
    }
    assert played' == moves[..p'] by {
      SliceTail(moves, result, w, p + w, e);
      assert moves[..p + 1] == moves[..p] + [moves[p]];
    }
  }
}
