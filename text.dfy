/**
 Word-level string helpers shared by the tokenizer and the sample generator:
 Python's `str.split(sep)` (on one separator character), `sep.join(words)`,
 `"".join(words)` and `s.replace(" ", "")`.
 */
module Text {

  /** Taking every element of a sequence leaves it unchanged. */
  lemma TakeAll<T>(s: seq<T>)
    ensures s[..|s|] == s
  {
  }

  /** `n` copies of `x`, Python's `[x] * n` (an empty list when `n` is 0). */
  function Repeat<T>(x: T, n: nat): (r: seq<T>)
    ensures |r| == n
    ensures forall k :: 0 <= k < n ==> r[k] == x
  {
    if n == 0 then [] else Repeat(x, n - 1) + [x]
  }

  /** One more copy goes at the end. */
  lemma RepeatSnoc<T>(x: T, k: nat)
    ensures Repeat(x, k + 1) == Repeat(x, k) + [x]
  {
  }

  /** Position of the first occurrence of `c` in `s`. */
  function FirstIndexOf(s: string, c: char): (i: nat)
    requires c in s
    ensures i < |s| && s[i] == c && c !in s[..i]
  {
    if s[0] == c then 0 else 1 + FirstIndexOf(s[1..], c)
  }

  /**
   Python's `s.split(sep)` for a one-character separator: every occurrence of
   `sep` ends a word, so two adjacent separators (or one at either end) give an
   empty word, and the empty string gives one empty word.
   */
  function Split(s: string, sep: char): (words: seq<string>)
    ensures |words| >= 1
    ensures forall k :: 0 <= k < |words| ==> sep !in words[k]
    decreases |s|
  {
    if sep !in s then [s]
    else
      var i := FirstIndexOf(s, sep);
      [s[..i]] + Split(s[i + 1..], sep)
  }

  /** Python's `sep.join(words)`. */
  function Join(words: seq<string>, sep: char): string
  {
    if |words| == 0 then ""
    else if |words| == 1 then words[0]
    else words[0] + [sep] + Join(words[1..], sep)
  }

  /** Python's `"".join(words)`. */
  function Concat(words: seq<string>): string
  {
    if words == [] then "" else Concat(words[..|words| - 1]) + words[|words| - 1]
  }

  /** Python's `s.replace(" ", "")`. */
  function RemoveSpaces(s: string): string
  {
    if s == [] then ""
    else RemoveSpaces(s[..|s| - 1]) + (if s[|s| - 1] == ' ' then "" else [s[|s| - 1]])
  }

  /** Joining the words that `Split` produced gives back the original string. */
  lemma {:induction false} JoinSplit(s: string, sep: char)
    ensures Join(Split(s, sep), sep) == s
    decreases |s|
  {
    if sep in s {
      var i := FirstIndexOf(s, sep);
      var words, rest := Split(s, sep), Split(s[i + 1..], sep);
      assert words[0] == s[..i] && words[1..] == rest;
      assert Join(words, sep) == s[..i] + [sep] + Join(rest, sep);
      JoinSplit(s[i + 1..], sep);
      assert s == s[..i] + [sep] + s[i + 1..];
    }
  }

  lemma {:induction false} FirstIndexOfAfterWord(w: string, rest: string, sep: char)
    requires sep !in w
    ensures sep in w + [sep] + rest && FirstIndexOf(w + [sep] + rest, sep) == |w|
    decreases |w|
  {
    var s := w + [sep] + rest;
    assert s[|w|] == sep;
    if w != [] {
      assert s[1..] == w[1..] + [sep] + rest;
      FirstIndexOfAfterWord(w[1..], rest, sep);
    }
  }

  /** Splitting a join gives back the words, as long as no word contains the separator. */
  lemma {:induction false} SplitJoin(words: seq<string>, sep: char)
    requires |words| >= 1
    requires forall k :: 0 <= k < |words| ==> sep !in words[k]
    ensures Split(Join(words, sep), sep) == words
  {
    if |words| > 1 {
      var w, rest := words[0], words[1..];
      var tail := Join(rest, sep);
      var s := Join(words, sep);
      assert Split(s, sep) == [w] + Split(tail, sep) by {
        assert s == w + [sep] + tail;
        FirstIndexOfAfterWord(w, tail, sep);
        assert s[..|w|] == w && s[|w| + 1..] == tail;
      }
      SplitJoin(rest, sep);
      assert words == [w] + rest;
    }
  }

  lemma {:induction false} ConcatAppend(a: seq<string>, b: seq<string>)
    ensures Concat(a + b) == Concat(a) + Concat(b)
    decreases |b|
  {
    if b != [] {
      var b' := b[..|b| - 1];
      assert (a + b)[..|a + b| - 1] == a + b';
      ConcatAppend(a, b');
    } else {
      assert a + b == a;
    }
  }

  lemma {:induction false} RemoveSpacesAppend(a: string, b: string)
    ensures RemoveSpaces(a + b) == RemoveSpaces(a) + RemoveSpaces(b)
    decreases |b|
  {
    if b != [] {
      var b' := b[..|b| - 1];
      assert (a + b)[..|a + b| - 1] == a + b';
      RemoveSpacesAppend(a, b');
    } else {
      assert a + b == a;
    }
  }

  lemma {:induction false} RemoveSpacesNone(s: string)
    requires ' ' !in s
    ensures RemoveSpaces(s) == s
    decreases |s|
  {
    if s != [] {
      RemoveSpacesNone(s[..|s| - 1]);
      assert s == s[..|s| - 1] + [s[|s| - 1]];
    }
  }

  /**
   Removing the spaces of a space-joined text leaves the words glued together:
   `" ".join(ws).replace(" ", "") == "".join(ws)` when no word holds a space.
   */
  lemma {:induction false} RemoveSpacesJoin(words: seq<string>)
    requires forall k :: 0 <= k < |words| ==> ' ' !in words[k]
    ensures RemoveSpaces(Join(words, ' ')) == Concat(words)
  {
    if |words| == 1 {
      RemoveSpacesNone(words[0]);
      assert words == [] + [words[0]];
    } else if |words| > 1 {
      var w, rest := words[0], words[1..];
      RemoveSpacesJoin(rest);
      RemoveSpacesWordSpace(w, Join(rest, ' '));
      ConcatAppend([w], rest);
      assert [w] + rest == words;
      assert Concat([w]) == w by { assert [w][..0] == []; }
    }
  }

  lemma RemoveSpacesWordSpace(w: string, tail: string)
    requires ' ' !in w
    ensures RemoveSpaces(w + " " + tail) == w + RemoveSpaces(tail)
  {
    var ws := w + " ";
    assert RemoveSpaces(ws) == w by {
      RemoveSpacesAppend(w, " ");
      RemoveSpacesNone(w);
      RemoveSpacesOfSpace();
    }
    RemoveSpacesAppend(ws, tail);
  }

  lemma RemoveSpacesOfSpace()
    ensures RemoveSpaces(" ") == ""
  {
    assert " "[..0] == "";
  }
}
