/**
 The `Vocabulary` class of chess_jepa/tokenizer.py: an insertion-ordered,
 two-way map between token strings and indices. The abstract value of a
 vocabulary is the sequence of its tokens in index order (`tokens`); the pure
 functions `Added` and `AddAll` say what `add_token` does to that sequence.
 */
module Vocabularies {

  /** No token occurs twice. */
  ghost predicate Distinct(ts: seq<string>)
  {
    forall i, j :: 0 <= i < j < |ts| ==> ts[i] != ts[j]
  }

  /** The token sequence after one `add_token(t)`: unchanged when `t` is present, else `t` goes last. */
  function Added(ts: seq<string>, t: string): seq<string>
  {
    if t in ts then ts else ts + [t]
  }

  /** The token sequence after `add_token` was called with each of `xs` in turn. */
  function AddAll(ts: seq<string>, xs: seq<string>): seq<string>
    decreases |xs|
  {
    if xs == [] then ts else Added(AddAll(ts, xs[..|xs| - 1]), xs[|xs| - 1])
  }

  /** The index of `t`: the position of its first occurrence. */
  function IndexOf(ts: seq<string>, t: string): (i: nat)
    requires t in ts
    ensures i < |ts| && ts[i] == t
    ensures t !in ts[..i]
  {
    if ts[0] == t then 0
    else
      var i := 1 + IndexOf(ts[1..], t);
      assert ts[..i] == [ts[0]] + ts[1..][..i - 1];
      i
  }

  lemma IndexOfDistinct(ts: seq<string>, k: nat)
    requires Distinct(ts) && k < |ts|
    ensures IndexOf(ts, ts[k]) == k
  {
    var i := IndexOf(ts, ts[k]);
  }

  /** `add_token` on a token already present changes nothing; on a new token it appends it. */
  lemma AddedProperties(ts: seq<string>, t: string)
    requires Distinct(ts)
    ensures Distinct(Added(ts, t))
    ensures t in Added(ts, t)
    ensures t in ts ==> Added(ts, t) == ts
    ensures t !in ts ==> |Added(ts, t)| == |ts| + 1 && IndexOf(Added(ts, t), t) == |ts|
  {
    if t !in ts {
      var r := ts + [t];
      assert Distinct(r) by {
        forall i, j | 0 <= i < j < |r| ensures r[i] != r[j] {
          if j == |ts| { assert r[i] == ts[i]; }
        }
      }
      IndexOfDistinct(r, |ts|);
    }
  }

  /** Adding a batch of tokens keeps them distinct, keeps the earlier tokens at their indices, and adds exactly the new ones. */
  lemma {:induction false} AddAllProperties(ts: seq<string>, xs: seq<string>)
    requires Distinct(ts)
    ensures Distinct(AddAll(ts, xs))
    ensures |AddAll(ts, xs)| >= |ts| && AddAll(ts, xs)[..|ts|] == ts
    ensures forall t :: t in AddAll(ts, xs) <==> t in ts || t in xs
    decreases |xs|
  {
    if xs != [] {
      var xs' := xs[..|xs| - 1];
      var x := xs[|xs| - 1];
      AddAllProperties(ts, xs');
      AddedProperties(AddAll(ts, xs'), x);
      assert xs == xs' + [x];
      var r := AddAll(ts, xs);
      if x !in AddAll(ts, xs') {
        assert r[..|ts|] == AddAll(ts, xs')[..|ts|];
      }
    }
  }

  lemma AddAllSnoc(ts: seq<string>, xs: seq<string>, x: string)
    ensures AddAll(ts, xs + [x]) == Added(AddAll(ts, xs), x)
  {
    assert (xs + [x])[..|xs|] == xs;
  }

  /** One more `add_token` call, taking the next element of `xs`. */
  lemma AddAllStep(ts: seq<string>, xs: seq<string>, k: nat)
    requires k < |xs|
    ensures AddAll(ts, xs[..k + 1]) == Added(AddAll(ts, xs[..k]), xs[k])
  {
    assert xs[..k + 1][..k] == xs[..k];
  }

  lemma {:induction false} AddAllConcat(ts: seq<string>, xs: seq<string>, ys: seq<string>)
    ensures AddAll(ts, xs + ys) == AddAll(AddAll(ts, xs), ys)
    decreases |ys|
  {
    if ys == [] {
      assert xs + ys == xs;
    } else {
      var ys' := ys[..|ys| - 1];
      assert (xs + ys)[..|xs + ys| - 1] == xs + ys';
      AddAllConcat(ts, xs, ys');
    }
  }

  /** Adding `xs` up to `a` and then the slice `a .. b` is adding `xs` up to `b`. */
  lemma AddAllSlices(ts: seq<string>, xs: seq<string>, a: nat, b: nat)
    requires a <= b <= |xs|
    ensures AddAll(AddAll(ts, xs[..a]), xs[a..b]) == AddAll(ts, xs[..b])
  {
    AddAllConcat(ts, xs[..a], xs[a..b]);
    assert xs[..a] + xs[a..b] == xs[..b];
  }

  /** A batch of tokens that are new and pairwise distinct is appended as it is. */
  lemma {:induction false} AddAllFresh(ts: seq<string>, xs: seq<string>)
    requires Distinct(xs)
    requires forall k :: 0 <= k < |xs| ==> xs[k] !in ts
    ensures AddAll(ts, xs) == ts + xs
    decreases |xs|
  {
    if xs != [] {
      var xs' := xs[..|xs| - 1];
      var x := xs[|xs| - 1];
      AddAllFresh(ts, xs');
      assert x !in xs' by {
        forall k | 0 <= k < |xs'| ensures xs'[k] != x {
          assert xs'[k] == xs[k];
        }
      }
      assert ts + xs' + [x] == ts + xs;
    }
  }

  /** Adding tokens that extend a distinct list appends them as they are. */
  lemma AddAllDistinctAppend(ts: seq<string>, xs: seq<string>)
    requires Distinct(ts + xs)
    ensures AddAll(ts, xs) == ts + xs
  {
    assert Distinct(xs) by {
      forall i, j | 0 <= i < j < |xs|
        ensures xs[i] != xs[j]
      {
        assert xs[i] == (ts + xs)[|ts| + i] && xs[j] == (ts + xs)[|ts| + j];
      }
    }
    forall k | 0 <= k < |xs|
      ensures xs[k] !in ts
    {
      forall j | 0 <= j < |ts|
        ensures ts[j] != xs[k]
      {
        assert ts[j] == (ts + xs)[j] && xs[k] == (ts + xs)[|ts| + k];
      }
    }
    AddAllFresh(ts, xs);
  }

  lemma DistinctPrefix(a: seq<string>, b: seq<string>)
    requires Distinct(a + b)
    ensures Distinct(a)
  {
    forall i, j | 0 <= i < j < |a|
      ensures a[i] != a[j]
    {
      assert a[i] == (a + b)[i] && a[j] == (a + b)[j];
    }
  }

  /** Two distinct lists with no token in common are distinct together. */
  lemma DistinctAppend(a: seq<string>, b: seq<string>)
    requires Distinct(a) && Distinct(b)
    requires forall i, j :: 0 <= i < |a| && 0 <= j < |b| ==> a[i] != b[j]
    ensures Distinct(a + b)
  {
    var ab := a + b;
    forall i, j | 0 <= i < j < |ab|
      ensures ab[i] != ab[j]
    {
      if j < |a| {
        assert ab[i] == a[i] && ab[j] == a[j];
      } else if i < |a| {
        assert ab[i] == a[i] && ab[j] == b[j - |a|];
      } else {
        assert ab[i] == b[i - |a|] && ab[j] == b[j - |a|];
      }
    }
  }

  /** A batch of tokens that are all present already changes nothing. */
  lemma {:induction false} AddAllPresent(ts: seq<string>, xs: seq<string>)
    requires forall k :: 0 <= k < |xs| ==> xs[k] in ts
    ensures AddAll(ts, xs) == ts
    decreases |xs|
  {
    if xs != [] {
      AddAllPresent(ts, xs[..|xs| - 1]);
    }
  }

  /** `tokenToIndex` maps exactly the tokens of `tokens`, each to its position. */
  ghost predicate IndexesOf(tokenToIndex: map<string, nat>, tokens: seq<string>)
  {
    && |tokenToIndex| == |tokens|
    && (forall t :: t in tokenToIndex <==> t in tokens)
    && (forall i :: 0 <= i < |tokens| ==> tokens[i] in tokenToIndex && tokenToIndex[tokens[i]] == i)
  }

  /** `indexToToken` maps exactly the positions of `tokens`, each to its token. */
  ghost predicate TokensAt(indexToToken: map<nat, string>, tokens: seq<string>)
  {
    && (forall i :: i in indexToToken <==> 0 <= i < |tokens|)
    && (forall i :: 0 <= i < |tokens| ==> indexToToken[i] == tokens[i])
  }

  /**
   The two dictionaries are mutual inverses over the indices `0 .. |tokens| - 1`,
   and `tokens` lists the keys of `tokenToIndex` in index order.
   */
  ghost predicate Consistent(tokenToIndex: map<string, nat>, indexToToken: map<nat, string>, tokens: seq<string>)
  {
    Distinct(tokens) && IndexesOf(tokenToIndex, tokens) && TokensAt(indexToToken, tokens)
  }

  lemma IndexesOfAdd(tokenToIndex: map<string, nat>, tokens: seq<string>, t: string)
    requires IndexesOf(tokenToIndex, tokens) && t !in tokens
    ensures IndexesOf(tokenToIndex[t := |tokens|], tokens + [t])
  {
    var m, ts := tokenToIndex[t := |tokens|], tokens + [t];
    assert |m| == |ts|;
    assert forall u :: u in m <==> u in ts;
    forall i | 0 <= i < |ts|
      ensures ts[i] in m && m[ts[i]] == i
    {
      if i < |tokens| { assert ts[i] == tokens[i] != t; }
    }
  }

  lemma TokensAtAdd(indexToToken: map<nat, string>, tokens: seq<string>, t: string)
    requires TokensAt(indexToToken, tokens)
    ensures TokensAt(indexToToken[|tokens| := t], tokens + [t])
  {
    var m, ts := indexToToken[|tokens| := t], tokens + [t];
    forall i
      ensures i in m <==> 0 <= i < |ts|
    {
      assert i in m <==> i == |tokens| || i in indexToToken;
    }
    forall i | 0 <= i < |ts|
      ensures m[i] == ts[i]
    {
      if i < |tokens| { assert ts[i] == tokens[i]; }
    }
  }

  /** Giving a new token the next index keeps the dictionaries consistent. */
  lemma ConsistentAdd(tokenToIndex: map<string, nat>, indexToToken: map<nat, string>, tokens: seq<string>, t: string)
    requires Consistent(tokenToIndex, indexToToken, tokens)
    requires t !in tokenToIndex
    ensures |tokenToIndex| == |tokens|
    ensures Consistent(tokenToIndex[t := |tokens|], indexToToken[|tokens| := t], tokens + [t])
  {
    AddedProperties(tokens, t);
    IndexesOfAdd(tokenToIndex, tokens, t);
    TokensAtAdd(indexToToken, tokens, t);
  }

  /**
   Python's `Vocabulary`: `token_to_index` and `index_to_token` are mutual
   inverses over the indices `0 .. len - 1`, assigned in insertion order.
   */
  class Vocabulary {
    var tokenToIndex: map<string, nat>
    var indexToToken: map<nat, string>
    /** The tokens in index order. */
    ghost var tokens: seq<string>

    ghost predicate Valid()
      reads this
    {
      Consistent(tokenToIndex, indexToToken, tokens)
    }

    /** `Vocabulary(padding_token)`: the padding token gets index 0. */
    constructor (paddingToken: string)
      ensures Valid()
      ensures tokens == [paddingToken]
      ensures tokenToIndex == map[paddingToken := 0] && indexToToken == map[0 := paddingToken]
    {
      tokenToIndex := map[];
      indexToToken := map[];
      tokens := [];
      new;
      AddToken(paddingToken);
    }

    /** `add_token`: a token already present changes nothing; a new one gets the next index. */
    method AddToken(token: string)
      requires Valid()
      modifies this
      ensures Valid()
      ensures tokens == Added(old(tokens), token)
      ensures token in old(tokens) ==>
        tokenToIndex == old(tokenToIndex) && indexToToken == old(indexToToken)
      ensures token !in old(tokens) ==>
        && tokenToIndex == old(tokenToIndex)[token := |old(tokens)|]
        && indexToToken == old(indexToToken)[|old(tokens)| := token]
        && GetIndex(token) == old(Size())
        && Size() == old(Size()) + 1
    {
      if token !in tokenToIndex {
        var index := |tokenToIndex|;
        ConsistentAdd(tokenToIndex, indexToToken, tokens, token);
        tokenToIndex := tokenToIndex[token := index];
        indexToToken := indexToToken[index := token];
        tokens := tokens + [token];
      }
    }

    /** `get_index`: defined only for a present token (the source raises `KeyError` otherwise). */
    function GetIndex(token: string): (index: nat)
      reads this
      requires Valid() && token in tokens
      ensures index < |tokens| && tokens[index] == token
      ensures index == IndexOf(tokens, token)
    {
      var index := tokenToIndex[token];
      IndexOfDistinct(tokens, index);
      index
    }

    /** `get_token`: defined only for a present index (the source raises `KeyError` otherwise). */
    function GetToken(index: nat): (token: string)
      reads this
      requires Valid() && index < |tokens|
      ensures token == tokens[index]
      ensures GetIndex(token) == index
    {
      IndexOfDistinct(tokens, index);
      indexToToken[index]
    }

    /** `__contains__`. */
    predicate Contains(token: string)
      reads this
      requires Valid()
      ensures Contains(token) <==> token in tokens
    {
      token in tokenToIndex
    }

    /** `__len__`. */
    function Size(): (n: nat)
      reads this
      requires Valid()
      ensures n == |tokens|
    {
      |tokenToIndex|
    }
  }
}
