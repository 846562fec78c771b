/** Concatenating the results of a function over a sequence, as the passes' nested loops do. */
module Seqs {
  /** `g(xs[0]) + g(xs[1]) + ...` */
  function ConcatMap<T, U>(g: T -> seq<U>, xs: seq<T>): seq<U>
    decreases |xs|
  {
    if |xs| == 0 then [] else g(xs[0]) + ConcatMap(g, xs[1..])
  }

  /** Every element of the result comes from the image of some element. */
  lemma {:induction false} ConcatMapSound<T, U>(g: T -> seq<U>, xs: seq<T>)
    ensures forall k | 0 <= k < |ConcatMap(g, xs)| :: exists i | 0 <= i < |xs| :: ConcatMap(g, xs)[k] in g(xs[i])
    decreases |xs|
  {
    if |xs| > 0 {
      ConcatMapSound(g, xs[1..]);
      var here, rest := g(xs[0]), ConcatMap(g, xs[1..]);
      var r := ConcatMap(g, xs);
      assert r == here + rest;
      forall k | 0 <= k < |r|
        ensures exists i | 0 <= i < |xs| :: r[k] in g(xs[i])
      {
        if k < |here| {
          assert r[k] == here[k] && here[k] in g(xs[0]);
          assert exists i | 0 <= i < |xs| :: r[k] in g(xs[i]);
        } else {
          assert r[k] == rest[k - |here|];
          var i :| 0 <= i < |xs[1..]| && rest[k - |here|] in g(xs[1..][i]);
          assert xs[1..][i] == xs[i + 1];
          assert r[k] in g(xs[i + 1]);
          assert exists i | 0 <= i < |xs| :: r[k] in g(xs[i]);
        }
      }
    } else {
      assert ConcatMap(g, xs) == [];
    }
  }

  /** Every element of every image is in the result. */
  lemma {:induction false} ConcatMapComplete<T, U>(g: T -> seq<U>, xs: seq<T>, i: nat, u: U)
    requires i < |xs| && u in g(xs[i])
    ensures u in ConcatMap(g, xs)
    decreases |xs|
  {
    if i > 0 {
      assert xs[1..][i - 1] == xs[i];
      ConcatMapComplete(g, xs[1..], i - 1, u);
    }
  }

  /** The result over a concatenation is the concatenation of the results. */
  lemma {:induction false} ConcatMapAppend<T, U>(g: T -> seq<U>, xs: seq<T>, ys: seq<T>)
    ensures ConcatMap(g, xs + ys) == ConcatMap(g, xs) + ConcatMap(g, ys)
    decreases |xs|
  {
    if |xs| == 0 {
      assert xs + ys == ys;
    } else {
      assert (xs + ys)[0] == xs[0];
      assert (xs + ys)[1..] == xs[1..] + ys;
      ConcatMapAppend(g, xs[1..], ys);
      assert ConcatMap(g, xs + ys) == g(xs[0]) + (ConcatMap(g, xs[1..]) + ConcatMap(g, ys));
    }
  }

  lemma ConcatMapSingle<T, U>(g: T -> seq<U>, x: T)
    ensures ConcatMap(g, [x]) == g(x)
  {
    assert [x][1..] == [];
  }
}
