/**
 Concatenating the blocks a function produces for each element of a sequence,
 in order; the details panel is built this way, one block per patient row.
 */
module Sequences {

  /** The blocks `f(xs[0]), f(xs[1]), ...` joined in order. */
  function FlatMap<T, U>(xs: seq<T>, f: T -> seq<U>): seq<U> {
    if |xs| == 0 then [] else f(xs[0]) + FlatMap(xs[1..], f)
  }

  /** Concatenation of sequences is associative. */
  lemma AppendAssociative<U>(x: seq<U>, y: seq<U>, z: seq<U>)
    ensures x + (y + z) == (x + y) + z
  {
  }

  /** Flattening distributes over concatenation of the element sequences. */
  lemma {:induction false} FlatMapAppend<T, U>(a: seq<T>, b: seq<T>, f: T -> seq<U>)
    ensures FlatMap(a + b, f) == FlatMap(a, f) + FlatMap(b, f)
  {
    if |a| == 0 {
      assert a + b == b;
    } else {
      assert (a + b)[0] == a[0];
      assert (a + b)[1..] == a[1..] + b;
      FlatMapAppend(a[1..], b, f);
      AppendAssociative(f(a[0]), FlatMap(a[1..], f), FlatMap(b, f));
    }
  }

  /** When every block has length `n`, the result has `n` lines per element, and
      line `j` of the block of element `k` sits at position n * k + j. */
  lemma {:induction false} FlatMapAt<T, U>(xs: seq<T>, f: T -> seq<U>, n: nat, k: nat, j: nat)
    requires forall x :: |f(x)| == n
    requires k < |xs| && j < n
    ensures |FlatMap(xs, f)| == n * |xs|
    ensures n * k + j < |FlatMap(xs, f)|
    ensures FlatMap(xs, f)[n * k + j] == f(xs[k])[j]
  {
    FlatMapLength(xs, f, n);
    FlatMapLength(xs[1..], f, n);
    if k > 0 {
      FlatMapAt(xs[1..], f, n, k - 1, j);
      assert n * k + j == n + (n * (k - 1) + j);
    }
  }

  /** When every block has length `n`, the result has n * |xs| elements. */
  lemma {:induction false} FlatMapLength<T, U>(xs: seq<T>, f: T -> seq<U>, n: nat)
    requires forall x :: |f(x)| == n
    ensures |FlatMap(xs, f)| == n * |xs|
  {
    if |xs| > 0 {
      FlatMapLength(xs[1..], f, n);
      assert n * |xs| == n + n * (|xs| - 1);
    }
  }
}
