/** Option and Result, used for the JavaScript `null` returns and the HTTP error replies. */
module Wrappers {

  datatype Option<+T> = None | Some(value: T)

  datatype Result<+T, +E> = Ok(value: T) | Err(error: E)

  /** `f` applied to each element of `xs`, in order. */
  function Map<A, B>(f: A -> B, xs: seq<A>): (r: seq<B>)
    ensures |r| == |xs|
    ensures forall i | 0 <= i < |xs| :: r[i] == f(xs[i])
  {
    seq(|xs|, i requires 0 <= i < |xs| => f(xs[i]))
  }

  lemma MapConcat<A, B>(f: A -> B, a: seq<A>, b: seq<A>)
    ensures Map(f, a + b) == Map(f, a) + Map(f, b)
  {
    assert forall i | 0 <= i < |b| :: (a + b)[|a| + i] == b[i];
  }

  /** The values present in `xs`, in order: what a loop pushing each non-null entry builds. */
  function Values<T>(xs: seq<Option<T>>): seq<T> {
    if xs == [] then []
    else Values(xs[..|xs| - 1]) + (if xs[|xs| - 1].Some? then [xs[|xs| - 1].value] else [])
  }

  /** Collecting the values of a sequence is collecting those of its parts one after the other. */
  lemma {:induction false} ValuesConcat<T>(a: seq<Option<T>>, b: seq<Option<T>>)
    ensures Values(a + b) == Values(a) + Values(b)
    decreases |b|
  {
    if b == [] {
      assert a + b == a;
    } else {
      var init := b[..|b| - 1];
      assert (a + b)[..|a + b| - 1] == a + init;
      ValuesConcat(a, init);
    }
  }

  /** Every value collected is present in `xs`, so there are never more values than entries. */
  lemma {:induction false} ValuesFrom<T>(xs: seq<Option<T>>)
    ensures |Values(xs)| <= |xs|
    ensures forall v | v in Values(xs) :: Some(v) in xs
    decreases |xs|
  {
    if xs != [] {
      var init := xs[..|xs| - 1];
      ValuesFrom(init);
      forall v | v in Values(xs) ensures Some(v) in xs {
        if v in Values(init) {
          assert Some(v) in init;
        } else {
          assert xs[|xs| - 1] == Some(v);
        }
      }
    }
  }
}
