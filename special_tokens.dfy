/**
 The two reserved words that `pgn.py` imports from the tokenizer module: the
 padding that fills the sliding windows and the marker that opens a game.
 */
module SpecialTokens {
  const PaddingToken: string := "<_>"
  const StartToken: string := "<start>"
}
