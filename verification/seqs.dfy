/** Generic sequence notions the fetcher's proofs are stated with. */
module Seqs {

  /** The concatenation of `bs` in order. */
  function Flatten<T>(bs: seq<seq<T>>): seq<T>
    decreases |bs|
  {
    if bs == [] then [] else Flatten(bs[..|bs| - 1]) + bs[|bs| - 1]
  }

  /** `xs` can be obtained from `ys` by deleting elements. */
  predicate SubseqOf<T(==)>(xs: seq<T>, ys: seq<T>)
    decreases |ys|
  {
    || xs == []
    || (&& ys != []
        && (|| SubseqOf(xs, ys[..|ys| - 1])
            || (xs[|xs| - 1] == ys[|ys| - 1] && SubseqOf(xs[..|xs| - 1], ys[..|ys| - 1]))))
  }

  lemma FlattenSnoc<T>(bs: seq<seq<T>>, i: nat)
    requires i < |bs|
    ensures Flatten(bs[..i + 1]) == Flatten(bs[..i]) + bs[i]
  {
    assert bs[..i + 1][..i] == bs[..i];
  }

  lemma {:induction false} FlattenAppend<T>(a: seq<seq<T>>, b: seq<seq<T>>)
    ensures Flatten(a + b) == Flatten(a) + Flatten(b)
    decreases |b|
  {
    if b == [] {
      assert a + b == a;
    } else {
      var b', x := b[..|b| - 1], b[|b| - 1];
      assert (a + b)[..|a + b| - 1] == a + b';
      FlattenAppend(a, b');
    }
  }

  /** An empty part contributes nothing: dropping it leaves the
      concatenation unchanged. */
  lemma {:induction false} FlattenSkipsEmpty<T>(bs: seq<seq<T>>, i: nat)
    requires i < |bs| && bs[i] == []
    ensures Flatten(bs) == Flatten(bs[..i] + bs[i + 1..])
  {
    var before, after := bs[..i], bs[i + 1..];
    assert bs == (before + [bs[i]]) + after;
    FlattenAppend(before + [bs[i]], after);
    FlattenAppend(before, [bs[i]]);
    assert Flatten([bs[i]]) == [] by {
      assert [bs[i]][..0] == [];
    }
    FlattenAppend(before, after);
  }
}
