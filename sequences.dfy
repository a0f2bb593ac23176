/** Concatenating the images of a sequence's elements, element after element. */
module Sequences {

  function ConcatMap<T, U>(xs: seq<T>, f: T -> seq<U>): seq<U> {
    if |xs| == 0 then [] else ConcatMap(xs[..|xs| - 1], f) + f(xs[|xs| - 1])
  }

  lemma ConcatMapSnoc<T, U>(xs: seq<T>, x: T, f: T -> seq<U>)
    ensures ConcatMap(xs + [x], f) == ConcatMap(xs, f) + f(x)
  {
    assert (xs + [x])[..|xs|] == xs;
  }

  /** Extending a prefix by one element appends that element's image. */
  lemma ConcatMapPrefixStep<T, U>(xs: seq<T>, i: nat, f: T -> seq<U>, acc: seq<U>, image: seq<U>)
    requires i < |xs| && image == f(xs[i])
    ensures acc + ConcatMap(xs[..i + 1], f) == (acc + ConcatMap(xs[..i], f)) + image
  {
    assert xs[..i + 1][..i] == xs[..i];
  }

  lemma {:induction false} ConcatMapAppend<T, U>(a: seq<T>, b: seq<T>, f: T -> seq<U>)
    ensures ConcatMap(a + b, f) == ConcatMap(a, f) + ConcatMap(b, f)
  {
    if |b| == 0 {
      assert a + b == a;
    } else {
      var n := |b| - 1;
      assert b == b[..n] + [b[n]];
      assert a + b == (a + b[..n]) + [b[n]];
      ConcatMapAppend(a, b[..n], f);
      ConcatMapSnoc(a + b[..n], b[n], f);
      ConcatMapSnoc(b[..n], b[n], f);
    }
  }
}
