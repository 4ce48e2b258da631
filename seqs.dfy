/** Facts about sequences that the step-by-step append lemmas share. */
module Seqs {
  import opened Wrappers

  /** The values `f` yields over `xs`, in order, skipping the elements it yields nothing for. */
  function FilterMap<A, B>(f: A -> Option<B>, xs: seq<A>): seq<B> {
    if xs == [] then []
    else
      var last := f(xs[|xs| - 1]);
      FilterMap(f, xs[..|xs| - 1]) + if last.Some? then [last.value] else []
  }

  /** `FilterMap` works element by element: over two runs it yields the values of each, in turn. */
  lemma {:induction false} FilterMapAppend<A, B>(f: A -> Option<B>, a: seq<A>, b: seq<A>)
    ensures FilterMap(f, a + b) == FilterMap(f, a) + FilterMap(f, b)
  {
    if b != [] {
      var init := b[..|b| - 1];
      var d := f(b[|b| - 1]);
      var tail := if d.Some? then [d.value] else [];
      FilterMapAppend(f, a, init);
      AppendDropLast(a, b);
      assert FilterMap(f, a + b) == FilterMap(f, a + init) + tail;
      assert FilterMap(f, a) + FilterMap(f, init) + tail == FilterMap(f, a) + (FilterMap(f, init) + tail);
    } else {
      assert a + b == a;
    }
  }
  /** Concatenation is associative. */
  lemma AppendAssociative<T>(a: seq<T>, b: seq<T>, c: seq<T>)
    ensures (a + b) + c == a + (b + c)
  {
  }

  /** Dropping the last element of `a + b` drops it from `b`, and the last element is `b`'s. */
  lemma AppendDropLast<T>(a: seq<T>, b: seq<T>)
    requires b != []
    ensures (a + b)[..|a + b| - 1] == a + b[..|b| - 1]
    ensures (a + b)[|a + b| - 1] == b[|b| - 1]
  {
  }

  /** Dropping the first element of `a + b` drops it from `a`, and the first element is `a`'s. */
  lemma AppendDropFirst<T>(a: seq<T>, b: seq<T>)
    requires a != []
    ensures (a + b)[1..] == a[1..] + b
    ensures (a + b)[0] == a[0]
  {
  }
}
