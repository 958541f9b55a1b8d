/** Order-preserving filtering of sequences, the shape of both loops of read_file. */
module Seqs {

  /** The elements of `xs` that satisfy `keep`, in their original order. */
  function Filter<T>(xs: seq<T>, keep: T -> bool): (ys: seq<T>)
    ensures |ys| <= |xs|
    ensures forall i :: 0 <= i < |ys| ==> ys[i] in xs && keep(ys[i])
    ensures forall i :: 0 <= i < |xs| && keep(xs[i]) ==> xs[i] in ys
  {
    if xs == [] then []
    else (if keep(xs[0]) then [xs[0]] else []) + Filter(xs[1..], keep)
  }

  /** Filtering a concatenation filters each part on its own. */
  lemma {:induction false} FilterAppend<T>(a: seq<T>, b: seq<T>, keep: T -> bool)
    ensures Filter(a + b, keep) == Filter(a, keep) + Filter(b, keep)
  {
    if a == [] {
      assert a + b == b;
    } else {
      assert (a + b)[0] == a[0];
      assert (a + b)[1..] == a[1..] + b;
      FilterAppend(a[1..], b, keep);
    }
  }

  /** A sequence whose every element is kept comes back unchanged. */
  lemma {:induction false} FilterKeepsAll<T>(xs: seq<T>, keep: T -> bool)
    requires forall i :: 0 <= i < |xs| ==> keep(xs[i])
    ensures Filter(xs, keep) == xs
  {
    if xs != [] {
      FilterKeepsAll(xs[1..], keep);
    }
  }

  /** The indices, from `from` on, of the elements of `xs` that `keep` accepts. */
  function Positions<T>(xs: seq<T>, keep: T -> bool, from: nat): (ps: seq<nat>)
    requires from <= |xs|
    decreases |xs| - from
  {
    if from == |xs| then []
    else (if keep(xs[from]) then [from] else []) + Positions(xs, keep, from + 1)
  }

  /**
   * `Filter` keeps exactly the elements that satisfy `keep`, each one
   * unchanged, at strictly increasing positions of the input.
   */
  lemma {:induction false} FilterPositions<T>(xs: seq<T>, keep: T -> bool, from: nat)
    requires from <= |xs|
    ensures |Positions(xs, keep, from)| == |Filter(xs[from..], keep)|
    ensures forall j :: 0 <= j < |Positions(xs, keep, from)| ==>
      from <= Positions(xs, keep, from)[j] < |xs| &&
      Filter(xs[from..], keep)[j] == xs[Positions(xs, keep, from)[j]]
    ensures forall j, k :: 0 <= j < k < |Positions(xs, keep, from)| ==>
      Positions(xs, keep, from)[j] < Positions(xs, keep, from)[k]
    ensures forall i :: from <= i < |xs| ==> (keep(xs[i]) <==> i in Positions(xs, keep, from))
    decreases |xs| - from
  {
    if from < |xs| {
      FilterPositions(xs, keep, from + 1);
      assert xs[from..][0] == xs[from];
      assert xs[from..][1..] == xs[from + 1..];
    }
  }
}
