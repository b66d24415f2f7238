/**
 * Sequence helpers shared by the modules that build lists or texts by
 * looping over a list and appending what each element contributes.
 */
module Seqs {
  /** The pieces `f` gives for the elements of `s`, one after the other. */
  function FlatMap<T, U>(s: seq<T>, f: T -> seq<U>): seq<U> {
    if s == [] then [] else FlatMap(s[..|s| - 1], f) + f(s[|s| - 1])
  }

  /** Flattening distributes over concatenation of the input. */
  lemma {:induction false} FlatMapAppend<T, U>(a: seq<T>, b: seq<T>, f: T -> seq<U>)
    ensures FlatMap(a + b, f) == FlatMap(a, f) + FlatMap(b, f)
    decreases |b|
  {
    if b == [] {
      assert a + b == a;
    } else {
      var n := |b| - 1;
      FlatMapAppend(a, b[..n], f);
      assert (a + b)[..|a + b| - 1] == a + b[..n];
    }
  }

  /** A single element contributes exactly its own piece. */
  lemma {:induction false} FlatMapSingle<T, U>(x: T, f: T -> seq<U>)
    ensures FlatMap([x], f) == f(x)
  {
    assert [x][..0] == [];
  }

  /** Appending one element appends its piece. */
  lemma {:induction false} FlatMapSnoc<T, U>(s: seq<T>, x: T, f: T -> seq<U>)
    ensures FlatMap(s + [x], f) == FlatMap(s, f) + f(x)
  {
    assert (s + [x])[..|s|] == s;
  }

  /** The first element contributes its piece ahead of the rest. */
  lemma {:induction false} FlatMapCons<T, U>(x: T, s: seq<T>, f: T -> seq<U>)
    ensures FlatMap([x] + s, f) == f(x) + FlatMap(s, f)
  {
    FlatMapAppend([x], s, f);
    FlatMapSingle(x, f);
  }

  /** The flattening splits around the piece of any one element. */
  lemma {:induction false} FlatMapSplitAt<T, U>(s: seq<T>, i: nat, f: T -> seq<U>)
    requires i < |s|
    ensures FlatMap(s, f) == FlatMap(s[..i], f) + f(s[i]) + FlatMap(s[i + 1..], f)
  {
    var pre, x, post := s[..i], s[i], s[i + 1..];
    assert s == pre + ([x] + post);
    FlatMapAppend(pre, [x] + post, f);
    FlatMapCons(x, post, f);
    var a, b, c := FlatMap(pre, f), f(x), FlatMap(post, f);
    assert a + (b + c) == a + b + c;
  }
}
