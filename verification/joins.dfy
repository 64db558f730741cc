/** Concatenating the text that a function produces for each element of a
    sequence, left to right: the shape of the renderer's two `map` loops, each
    of which appends one piece per element to an accumulator. */
module Joins {

  /** The pieces `f(xs[0])`, ..., `f(xs[|xs| - 1])` appended in order. */
  function Join<T>(f: T -> string, xs: seq<T>): string {
    if xs == [] then "" else Join(f, xs[..|xs| - 1]) + f(xs[|xs| - 1])
  }

  /** Joining a concatenation joins each part and appends the results. */
  lemma {:induction false} JoinAppend<T>(f: T -> string, a: seq<T>, b: seq<T>)
    ensures Join(f, a + b) == Join(f, a) + Join(f, b)
    decreases |b|
  {
    if b == [] {
      assert a + b == a;
    } else {
      var ab := a + b;
      assert ab[..|ab| - 1] == a + b[..|b| - 1];
      assert ab[|ab| - 1] == b[|b| - 1];
      JoinAppend(f, a, b[..|b| - 1]);
    }
  }

  /** One element's piece comes before the pieces of the elements after it. */
  lemma JoinCons<T>(f: T -> string, x: T, xs: seq<T>)
    ensures Join(f, [x] + xs) == f(x) + Join(f, xs)
  {
    JoinAppend(f, [x], xs);
    assert Join(f, [x]) == Join(f, []) + f(x);
  }

  /** Extending a prefix of `xs` by one element appends that element's piece:
      the step an accumulating loop takes. */
  lemma JoinSnoc<T>(f: T -> string, xs: seq<T>, j: nat)
    requires j < |xs|
    ensures Join(f, xs[..j + 1]) == Join(f, xs[..j]) + f(xs[j])
  {
    assert xs[..j + 1][..j] == xs[..j];
  }

  /** A non-empty join is the first piece followed by the join of the rest. */
  lemma JoinFirst<T>(f: T -> string, xs: seq<T>)
    requires xs != []
    ensures Join(f, xs) == f(xs[0]) + Join(f, xs[1..])
  {
    JoinCons(f, xs[0], xs[1..]);
    assert [xs[0]] + xs[1..] == xs;
  }

  /** The piece of the `k`-th element sits right after the pieces of the
      elements before it. */
  lemma JoinAt<T>(f: T -> string, xs: seq<T>, k: nat)
    requires k < |xs|
    ensures var start := |Join(f, xs[..k])|;
      && start + |f(xs[k])| <= |Join(f, xs)|
      && Join(f, xs)[start..start + |f(xs[k])|] == f(xs[k])
  {
    assert xs == xs[..k] + ([xs[k]] + xs[k + 1..]);
    JoinAppend(f, xs[..k], [xs[k]] + xs[k + 1..]);
    JoinCons(f, xs[k], xs[k + 1..]);
  }
}
