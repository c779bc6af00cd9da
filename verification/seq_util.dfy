/** The array combinators the pipeline is built from: `Array.prototype.filter`
    and `Array.prototype.reduce` with an initial accumulator, over `seq`. */
module SeqUtil {

  /** `xs.filter(p)`: the elements of `xs` satisfying `p`, in their original order. */
  function Filter<T>(xs: seq<T>, p: T -> bool): (r: seq<T>)
    ensures |r| <= |xs|
    ensures forall i :: 0 <= i < |r| ==> r[i] in xs && p(r[i])
    ensures forall i :: 0 <= i < |xs| && p(xs[i]) ==> xs[i] in r
  {
    if |xs| == 0 then []
    else (if p(xs[0]) then [xs[0]] else []) + Filter(xs[1..], p)
  }

  /** Filtering a concatenation filters each part: the filter keeps relative order. */
  lemma {:induction false} FilterConcat<T>(xs: seq<T>, ys: seq<T>, p: T -> bool)
    ensures Filter(xs + ys, p) == Filter(xs, p) + Filter(ys, p)
  {
    if |xs| == 0 {
      assert xs + ys == ys;
    } else {
      assert (xs + ys)[0] == xs[0];
      assert (xs + ys)[1..] == xs[1..] + ys;
      FilterConcat(xs[1..], ys, p);
    }
  }

  /** `ts.reduce(f, acc)`: folds `f` over `ts` from the left, starting from `acc`. */
  function FoldLeft<A, T>(f: (A, T) -> A, acc: A, ts: seq<T>): A
    decreases |ts|
  {
    if |ts| == 0 then acc else FoldLeft(f, f(acc, ts[0]), ts[1..])
  }

  /** Concatenation of `g(t)` over `ts`, in order (a flat map). */
  function FlatMap<T, A>(g: T -> seq<A>, ts: seq<T>): seq<A> {
    if |ts| == 0 then [] else g(ts[0]) + FlatMap(g, ts[1..])
  }

  /** The flat map of a single element is its own image. */
  lemma FlatMapSingleton<T, A>(g: T -> seq<A>, t: T)
    ensures FlatMap(g, [t]) == g(t)
  {
    assert [t][1..] == [];
  }

  lemma {:induction false} FlatMapConcat<T, A>(g: T -> seq<A>, xs: seq<T>, ys: seq<T>)
    ensures FlatMap(g, xs + ys) == FlatMap(g, xs) + FlatMap(g, ys)
  {
    if |xs| == 0 {
      assert xs + ys == ys;
    } else {
      assert (xs + ys)[0] == xs[0];
      assert (xs + ys)[1..] == xs[1..] + ys;
      FlatMapConcat(g, xs[1..], ys);
    }
  }

  /** A reducer that appends `g(t)` to its accumulator folds into `acc` followed
      by the flat map of `g`: the records come out in input order. */
  lemma {:induction false} FoldAppend<A, T>(f: (seq<A>, T) -> seq<A>, g: T -> seq<A>, acc: seq<A>, ts: seq<T>)
    requires forall a, t :: f(a, t) == a + g(t)
    ensures FoldLeft(f, acc, ts) == acc + FlatMap(g, ts)
    decreases |ts|
  {
    if |ts| != 0 {
      FoldAppend(f, g, f(acc, ts[0]), ts[1..]);
    }
  }

  /** A relation that holds pointwise between `ts[1..]` and `tail`, and between
      the heads, holds pointwise between `ts` and `[head] + tail`. */
  lemma ConsPointwise<T, U>(rel: (T, U) -> bool, ts: seq<T>, head: U, tail: seq<U>)
    requires |ts| > 0 && rel(ts[0], head) && |tail| == |ts| - 1
    requires forall j :: 0 <= j < |tail| ==> rel(ts[1..][j], tail[j])
    ensures forall i :: 0 <= i < |ts| ==> rel(ts[i], ([head] + tail)[i])
  {
    forall i | 1 <= i < |ts|
      ensures rel(ts[i], ([head] + tail)[i])
    {
      assert ts[i] == ts[1..][i - 1];
    }
  }
}
